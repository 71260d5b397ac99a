/** decodePayloadAndSplit of pkg/lxmf/message.go: decoding a payload and recovering the hashed bytes. */
module Payload {
  import opened Basics
  import opened MsgPack
  import opened MsgPackProofs

  /** `n` values one after the other, decoded strictly from depth zero. */
  function DecodeTop(data: bytes, n: nat): (r: Parsed<seq<Value>>)
    ensures r.Ok? ==> |r.rest| <= |data| && |r.v| == n
    decreases n
  {
    if n == 0 then Ok([], data)
    else
      match Decode(data, 0, 0, false)
      case Fail => Fail
      case Ok(v, rest) =>
        match DecodeTop(rest, n - 1)
        case Fail => Fail
        case Ok(vs, rest') => Ok([v] + vs, rest')
  }

  datatype SplitResult = Rejected | Accepted(elems: seq<Value>, hashed: bytes)

  /** The header is one of the array heads, with four to fifteen elements that could be there. */
  function PayloadHead(data: bytes): Head {
    var h := ParseHead(data);
    if h.Sized? && h.kind == KArr && 4 <= h.n <= 15 && h.n <= |h.rest| then h else Bad
  }

  function Split(data: bytes): SplitResult {
    var h := PayloadHead(data);
    if h.Bad? then Rejected else
      match DecodeTop(h.rest, 4)
      case Fail => Rejected
      case Ok(first, after) =>
        match DecodeTop(after, h.n - 4)
        case Fail => Rejected
        case Ok(more, end) =>
          if end != [] || (h.n != 4 && h.n != 5) then Rejected
          else Accepted(first + more, if h.n == 4 then data else [0x94] + h.rest[..|h.rest| - |after|])
  }

  // ---------------------------------------------------------------- the reader

  /** A method's outcome is the one that the function describes. */
  predicate Yields<T(==)>(r: Option<T>, rest: bytes, want: Parsed<T>) {
    match want
    case Fail => r == None
    case Ok(v, left) => r == Some(v) && rest == left
  }

  /** The whole result is what is done so far followed by the result of the remainder. */
  predicate Resumes<T(==)>(whole: Parsed<seq<T>>, done: seq<T>, tail: Parsed<seq<T>>) {
    match tail
    case Fail => whole == Fail
    case Ok(vs, rest) => whole == Ok(done + vs, rest)
  }

  lemma ManyStep(whole: Parsed<seq<Value>>, done: seq<Value>, data: bytes, n: nat, maps: nat, arrays: nat)
    requires n > 0 && Resumes(whole, done, DecodeMany(data, n, maps, arrays))
    ensures match OneElement(data, maps, arrays)
            case Fail => whole == Fail
            case Ok(v, rest) => Resumes(whole, done + [v], DecodeMany(rest, n - 1, maps, arrays))
  {
    var first := OneElement(data, maps, arrays);
    if first.Ok? {
      var tail := DecodeMany(first.rest, n - 1, maps, arrays);
      assert tail.Ok? ==> done + ([first.v] + tail.v) == (done + [first.v]) + tail.v;
    }
  }

  lemma PairsStep(whole: Parsed<seq<Entry>>, done: seq<Entry>, data: bytes, n: nat, maps: nat, arrays: nat)
    requires n > 0 && Resumes(whole, done, DecodePairs(data, n, maps, arrays))
    ensures match OnePair(data, maps, arrays)
            case Fail => whole == Fail
            case Ok(e, rest) => Resumes(whole, done + [e], DecodePairs(rest, n - 1, maps, arrays))
  {
    var one := OnePair(data, maps, arrays);
    if one.Ok? {
      var tail := DecodePairs(one.rest, n - 1, maps, arrays);
      assert tail.Ok? ==> done + ([one.v] + tail.v) == (done + [one.v]) + tail.v;
    }
  }

  /** The decoder object: a reader over the data and the two depth counters. */
  class Decoder {
    const data: bytes
    var pos: nat
    var mapDepth: nat
    var depth: nat

    ghost predicate Valid()
      reads this
    {
      pos <= |data|
    }

    constructor (data: bytes)
      ensures this.data == data && pos == 0 && mapDepth == 0 && depth == 0
    {
      this.data := data;
      pos, mapDepth, depth := 0, 0, 0;
    }

    function Rest(): bytes
      requires Valid()
      reads this
    {
      data[pos..]
    }

    /** Moves the reader so that `rest` is what is left. */
    method Advance(rest: bytes)
      requires Valid() && IsSuffix(rest, Rest())
      modifies this`pos
      ensures Valid() && Rest() == rest && pos >= old(pos) && pos == |data| - |rest|
    {
      pos := |data| - |rest|;
    }

    /** One value; both depth counters are as before afterwards, also after an error. */
    method DecodeInterface(loose: bool) returns (r: Option<Value>)
      requires Valid() && mapDepth <= MAX_MAP_DEPTH && depth <= MAX_ARRAY_DEPTH
      modifies this`pos, this`mapDepth, this`depth
      ensures Valid() && mapDepth == old(mapDepth) && depth == old(depth) && pos >= old(pos)
      ensures Yields(r, Rest(), Decode(old(Rest()), old(mapDepth), old(depth), loose))
      decreases |data| - pos, 0
    {
      ghost var start := Rest();
      var h := ParseHead(Rest());
      DecodeOn(start, mapDepth, depth, loose);
      if h.Bad? {
        return None;
      }
      HeadRestIsSuffix(start);
      Advance(h.rest);
      if h.Atom? {
        return Some(LoosenAtom(h.v, loose));
      }
      r := DecodeSized(h.kind, h.n, loose);
    }

    /** The switch over the kinds of value that a length announces. */
    method DecodeSized(kind: Kind, n: nat, loose: bool) returns (r: Option<Value>)
      requires Valid() && mapDepth <= MAX_MAP_DEPTH && depth <= MAX_ARRAY_DEPTH
      modifies this`pos, this`mapDepth, this`depth
      ensures Valid() && mapDepth == old(mapDepth) && depth == old(depth) && pos >= old(pos)
      ensures Yields(r, Rest(), SizedValue(kind, n, old(Rest()), old(mapDepth), old(depth), loose))
      decreases |data| - pos, 5
    {
      match kind
      case KArr => r := DecodeArr(n);
      case KMap => r := DecodeMapValue(n);
      case _ => r := ReadText(kind, n, loose);
    }

    /** The bytes of a string, a byte string or a timestamp. */
    method ReadText(kind: Kind, n: nat, loose: bool) returns (r: Option<Value>)
      requires Valid() && kind != KArr && kind != KMap
      modifies this`pos
      ensures Valid() && pos >= old(pos)
      ensures Yields(r, Rest(), TextValue(kind, n, old(Rest()), loose))
    {
      var here := Rest();
      if n > |here| {
        return None;
      }
      var text := here[..n];
      Advance(here[n..]);
      if kind == KStr || (kind == KBin && loose) {
        return Some(Str(text));
      } else if kind == KBin {
        return Some(Bin(text));
      }
      return if n == 4 || n == 8 || n == 12 then Some(Time(text)) else None;
    }

    method DecodeArr(n: nat) returns (r: Option<Value>)
      requires Valid() && mapDepth <= MAX_MAP_DEPTH && depth <= MAX_ARRAY_DEPTH
      modifies this`pos, this`mapDepth, this`depth
      ensures Valid() && mapDepth == old(mapDepth) && depth == old(depth) && pos >= old(pos)
      ensures Yields(r, Rest(), ArrValue(n, old(Rest()), old(mapDepth), old(depth)))
      decreases |data| - pos, 4
    {
      var vs := DecodeSlice(n);
      r := if vs.Some? then Some(Arr(vs.value)) else None;
    }

    method DecodeMapValue(n: nat) returns (r: Option<Value>)
      requires Valid() && mapDepth <= MAX_MAP_DEPTH && depth <= MAX_ARRAY_DEPTH
      modifies this`pos, this`mapDepth, this`depth
      ensures Valid() && mapDepth == old(mapDepth) && depth == old(depth) && pos >= old(pos)
      ensures Yields(r, Rest(), MapValue(n, old(Rest()), old(mapDepth), old(depth)))
      decreases |data| - pos, 4
    {
      var es := DecodeMap(n);
      r := if es.Some? then Some(Map(es.value)) else None;
    }

    /** decodeInterfaceCond: enterDepth and leaveDepth around a loose decode. */
    method DecodeElement() returns (r: Option<Value>)
      requires Valid() && mapDepth <= MAX_MAP_DEPTH && depth <= MAX_ARRAY_DEPTH
      modifies this`pos, this`mapDepth, this`depth
      ensures Valid() && mapDepth == old(mapDepth) && depth == old(depth) && pos >= old(pos)
      ensures Yields(r, Rest(), OneElement(old(Rest()), old(mapDepth), old(depth) + 1))
      decreases |data| - pos, 1
    {
      if depth + 1 > MAX_ARRAY_DEPTH {
        return None;
      }
      depth := depth + 1;
      r := DecodeInterface(true);
      depth := depth - 1;
    }

    /** decodeSlice */
    method DecodeSlice(n: nat) returns (r: Option<seq<Value>>)
      requires Valid() && mapDepth <= MAX_MAP_DEPTH && depth <= MAX_ARRAY_DEPTH
      modifies this`pos, this`mapDepth, this`depth
      ensures Valid() && mapDepth == old(mapDepth) && depth == old(depth) && pos >= old(pos)
      ensures Yields(r, Rest(), if n > |old(Rest())| then Fail
                                else DecodeMany(old(Rest()), n, old(mapDepth), old(depth) + 1))
      decreases |data| - pos, 3
    {
      if n > |Rest()| {
        return None;
      }
      r := FillSlice(n);
    }

    /** The loop of decodeSlice. */
    method FillSlice(n: nat) returns (r: Option<seq<Value>>)
      requires Valid() && mapDepth <= MAX_MAP_DEPTH && depth <= MAX_ARRAY_DEPTH
      modifies this`pos, this`mapDepth, this`depth
      ensures Valid() && mapDepth == old(mapDepth) && depth == old(depth) && pos >= old(pos)
      ensures Yields(r, Rest(), DecodeMany(old(Rest()), n, old(mapDepth), old(depth) + 1))
      decreases |data| - pos, 2
    {
      var out: seq<Value> := [];
      ghost var whole := DecodeMany(Rest(), n, mapDepth, depth + 1);
      assert whole.Ok? ==> out + whole.v == whole.v;
      var left := n;
      while left > 0
        invariant Valid() && mapDepth == old(mapDepth) && depth == old(depth) && pos >= old(pos)
        invariant Resumes(whole, out, DecodeMany(Rest(), left, mapDepth, depth + 1))
        decreases left
      {
        ManyStep(whole, out, Rest(), left, mapDepth, depth + 1);
        var v := DecodeElement();
        if v.None? {
          return None;
        }
        out := out + [v.value];
        left := left - 1;
      }
      assert out + [] == out;
      return Some(out);
    }

    /** decodeMap of message.go after the head: the depth is restored on every way out. */
    method DecodeMap(n: nat) returns (r: Option<seq<Entry>>)
      requires Valid() && mapDepth <= MAX_MAP_DEPTH && depth <= MAX_ARRAY_DEPTH
      modifies this`pos, this`mapDepth, this`depth
      ensures Valid() && mapDepth == old(mapDepth) && depth == old(depth) && pos >= old(pos)
      ensures Yields(r, Rest(), if mapDepth >= MAX_MAP_DEPTH || n > |old(Rest())| / 2 || n > MAX_MAP_PAIRS then Fail
                                else DecodePairs(old(Rest()), n, old(mapDepth) + 1, old(depth)))
      decreases |data| - pos, 3
    {
      if mapDepth >= MAX_MAP_DEPTH {
        return None;
      }
      mapDepth := mapDepth + 1;
      if n > |Rest()| / 2 || n > MAX_MAP_PAIRS {
        r := None;
      } else {
        r := DecodeEntries(n);
      }
      mapDepth := mapDepth - 1;
    }

    method DecodeEntry() returns (r: Option<Entry>)
      requires Valid() && mapDepth <= MAX_MAP_DEPTH && depth <= MAX_ARRAY_DEPTH
      modifies this`pos, this`mapDepth, this`depth
      ensures Valid() && mapDepth == old(mapDepth) && depth == old(depth) && pos >= old(pos)
      ensures Yields(r, Rest(), OnePair(old(Rest()), old(mapDepth), old(depth)))
      decreases |data| - pos, 1
    {
      var k := DecodeInterface(false);
      if k.None? || !Comparable(k.value) {
        return None;
      }
      var v := DecodeInterface(false);
      if v.None? {
        return None;
      }
      return Some(Entry(k.value, v.value));
    }

    method DecodeEntries(n: nat) returns (r: Option<seq<Entry>>)
      requires Valid() && mapDepth <= MAX_MAP_DEPTH && depth <= MAX_ARRAY_DEPTH
      modifies this`pos, this`mapDepth, this`depth
      ensures Valid() && mapDepth == old(mapDepth) && depth == old(depth) && pos >= old(pos)
      ensures Yields(r, Rest(), DecodePairs(old(Rest()), n, old(mapDepth), old(depth)))
      decreases |data| - pos, 2
    {
      var out: seq<Entry> := [];
      ghost var whole := DecodePairs(Rest(), n, mapDepth, depth);
      assert whole.Ok? ==> out + whole.v == whole.v;
      var left := n;
      while left > 0
        invariant Valid() && mapDepth == old(mapDepth) && depth == old(depth) && pos >= old(pos)
        invariant Resumes(whole, out, DecodePairs(Rest(), left, mapDepth, depth))
        decreases left
      {
        PairsStep(whole, out, Rest(), left, mapDepth, depth);
        var e := DecodeEntry();
        if e.None? {
          return None;
        }
        out := out + [e.value];
        left := left - 1;
      }
      assert out + [] == out;
      return Some(out);
    }
  }

  /** The loops of decodePayloadAndSplit: `n` elements through one decoder. */
  method DecodeElements(dec: Decoder, n: nat) returns (r: Option<seq<Value>>)
    requires dec.Valid() && dec.mapDepth == 0 && dec.depth == 0
    modifies dec`pos, dec`mapDepth, dec`depth
    ensures dec.Valid() && dec.mapDepth == 0 && dec.depth == 0
    ensures Yields(r, dec.Rest(), DecodeTop(old(dec.Rest()), n))
  {
    var out: seq<Value> := [];
    ghost var whole := DecodeTop(dec.Rest(), n);
    assert whole.Ok? ==> out + whole.v == whole.v;
    var left := n;
    while left > 0
      invariant dec.Valid() && dec.mapDepth == 0 && dec.depth == 0
      invariant Resumes(whole, out, DecodeTop(dec.Rest(), left))
      decreases left
    {
      TopStep(whole, out, dec.Rest(), left);
      var v := dec.DecodeInterface(false);
      if v.None? {
        return None;
      }
      out := out + [v.value];
      left := left - 1;
    }
    assert out + [] == out;
    return Some(out);
  }

  lemma TopStep(whole: Parsed<seq<Value>>, done: seq<Value>, data: bytes, n: nat)
    requires n > 0 && Resumes(whole, done, DecodeTop(data, n))
    ensures match Decode(data, 0, 0, false)
            case Fail => whole == Fail
            case Ok(v, rest) => Resumes(whole, done + [v], DecodeTop(rest, n - 1))
  {
    var first := Decode(data, 0, 0, false);
    if first.Ok? {
      var tail := DecodeTop(first.rest, n - 1);
      assert tail.Ok? ==> done + ([first.v] + tail.v) == (done + [first.v]) + tail.v;
    }
  }

  /** decodePayloadAndSplit */
  method DecodePayloadAndSplit(data: bytes) returns (r: SplitResult)
    ensures r == Split(data)
  {
    var dec := new Decoder(data);
    var h := ParseHead(data);
    if !h.Sized? || h.kind != KArr || h.n > |h.rest| || h.n < 4 || h.n > 15 {
      return Rejected;
    }
    HeadRestIsSuffix(data);
    assert dec.Rest() == data;
    dec.Advance(h.rest);
    var posAfterHeader := dec.pos;
    var first := DecodeElements(dec, 4);
    if first.None? {
      return Rejected;
    }
    var posAfterFourth := dec.pos;
    ghost var after := dec.Rest();
    var hashed := data;
    if h.n != 4 {
      hashed := [0x94] + data[posAfterHeader..posAfterFourth];
      CutBetween(data, h.rest, after);
    }
    var more := DecodeElements(dec, h.n - 4);
    if more.None? {
      return Rejected;
    }
    if |dec.Rest()| != 0 || (h.n != 4 && h.n != 5) {
      return Rejected;
    }
    return Accepted(first.value + more.value, hashed);
  }

  lemma CutBetween(data: bytes, rest: bytes, after: bytes)
    requires IsSuffix(rest, data) && |after| <= |rest|
    ensures data[|data| - |rest|..|data| - |after|] == rest[..|rest| - |after|]
  {}

  // ---------------------------------------------------------------- what splitting guarantees

  predicate AllFitTop(es: seq<Value>) {
    AllFit(es, MAX_MAP_DEPTH, MAX_ARRAY_DEPTH)
  }

  function StrictAll(es: seq<Value>): (r: seq<Value>)
    ensures |r| == |es|
  {
    if es == [] then [] else [Loosened(es[0], false)] + StrictAll(es[1..])
  }

  lemma {:induction false} TopOfEncoded(es: seq<Value>, x: bytes)
    requires EncodableAll(es)
    ensures DecodeTop(EncAll(es) + x, |es|) == if AllFitTop(es) then Ok(StrictAll(es), x) else Fail
  {
    if es == [] {
      assert [] + x == x;
    } else {
      Regroup(Enc(es[0]), EncAll(es[1..]), x);
      DecodeEnc(es[0], EncAll(es[1..]) + x, 0, 0, false);
      TopOfEncoded(es[1..], x);
    }
  }

  lemma {:induction false} TopExtends(data: bytes, x: bytes, n: nat)
    requires DecodeTop(data, n).Ok?
    ensures DecodeTop(data + x, n) == Ok(DecodeTop(data, n).v, DecodeTop(data, n).rest + x)
    decreases n
  {
    if n > 0 {
      DecodeExtends(data, x, 0, 0, false);
      TopExtends(Decode(data, 0, 0, false).rest, x, n - 1);
    }
  }

  lemma {:induction false} TopLeavesSuffix(data: bytes, n: nat)
    requires DecodeTop(data, n).Ok?
    ensures IsSuffix(DecodeTop(data, n).rest, data)
    decreases n
  {
    if n > 0 {
      var rest := Decode(data, 0, 0, false).rest;
      DecodeLeavesSuffix(data, 0, 0, false);
      TopLeavesSuffix(rest, n - 1);
      SuffixOfSuffix(DecodeTop(rest, n - 1).rest, rest, data);
    }
  }

  /** A decoder that used up `used` in front of `rest` accepts `used` alone with the same result. */
  lemma {:induction false} TopOfUsed(used: bytes, rest: bytes, n: nat)
    requires DecodeTop(used + rest, n).Ok? && DecodeTop(used + rest, n).rest == rest
    ensures DecodeTop(used, n) == Ok(DecodeTop(used + rest, n).v, [])
  {
    TopShrinks(used, rest, n);
  }

  lemma {:induction false} TopShrinks(data: bytes, x: bytes, n: nat)
    requires DecodeTop(data + x, n).Ok? && |DecodeTop(data + x, n).rest| >= |x|
    ensures DecodeTop(data, n).Ok? && DecodeTop(data + x, n) == More(DecodeTop(data, n), x)
    decreases n
  {
    if n > 0 {
      DecodeShrinks(data, x, 0, 0, false);
      TopShrinks(Decode(data, 0, 0, false).rest, x, n - 1);
    }
  }

  lemma HeadShrinks(data: bytes, x: bytes)
    requires ParseHead(data + x) != Bad && |ParseHead(data + x).rest| >= |x|
    ensures ParseHead(data) != Bad && ParseHead(data + x) == Before(ParseHead(data), x)
  {
    HeadNeedsOnlyItself(data, x);
    HeadExtends(data, x);
  }

  lemma HeadNeedsOnlyItself(data: bytes, x: bytes)
    requires ParseHead(data + x) != Bad && |ParseHead(data + x).rest| >= |x|
    ensures ParseHead(data) != Bad
  {
    assert data == [] ==> data + x == x;
    assert (data + x)[0] == data[0];
    SliceOfConcat(data, x, 1);
    HeadOfNeedsOnlyItself(ShapeOf(data[0]), data[1..], x);
  }

  lemma HeadOfNeedsOnlyItself(s: Shape, r: bytes, x: bytes)
    requires HeadOf(s, r + x) != Bad && |HeadOf(s, r + x).rest| >= |x|
    ensures HeadOf(s, r) != Bad
  {
    match s
    case Ext(n) => assert (r + x)[0] == r[0];
    case LongExt(w) =>
      SliceOfConcat(r, x, w);
      assert (r[w..] + x)[0] == r[w..][0];
    case _ =>
  }

  /** If decoding in front of `x` leaves at least `x`, then it never looked at it. */
  lemma {:induction false} DecodeShrinks(data: bytes, x: bytes, maps: nat, arrays: nat, loose: bool)
    requires Decode(data + x, maps, arrays, loose).Ok? && |Decode(data + x, maps, arrays, loose).rest| >= |x|
    ensures Decode(data, maps, arrays, loose).Ok?
    ensures Decode(data + x, maps, arrays, loose) == More(Decode(data, maps, arrays, loose), x)
    decreases |data|, 0
  {
    DecodeOn(data + x, maps, arrays, loose);
    DecodeOn(data, maps, arrays, loose);
    HeadShrinks(data, x);
    var h := ParseHead(data);
    if h.Sized? {
      SizedShrinks(h.kind, h.n, h.rest, x, maps, arrays, loose);
    }
    DecodeExtends(data, x, maps, arrays, loose);
  }

  lemma {:induction false} SizedShrinks(kind: Kind, n: nat, rest: bytes, x: bytes, maps: nat, arrays: nat, loose: bool)
    requires SizedValue(kind, n, rest + x, maps, arrays, loose).Ok?
    requires |SizedValue(kind, n, rest + x, maps, arrays, loose).rest| >= |x|
    ensures SizedValue(kind, n, rest, maps, arrays, loose).Ok?
    decreases |rest|, 4
  {
    match kind
    case KArr =>
      ManyShrinks(rest, x, n, maps, arrays + 1);
      ManyUsesOneEach(rest, n, maps, arrays + 1);
    case KMap =>
      PairsShrinks(rest, x, n, maps + 1, arrays);
      PairsUseTwoEach(rest, n, maps + 1, arrays);
    case _ =>
  }

  lemma {:induction false} ManyUsesOneEach(data: bytes, n: nat, maps: nat, arrays: nat)
    requires DecodeMany(data, n, maps, arrays).Ok?
    ensures |data| - |DecodeMany(data, n, maps, arrays).rest| >= n
    decreases n
  {
    if n > 0 {
      ManyUsesOneEach(Decode(data, maps, arrays, true).rest, n - 1, maps, arrays);
    }
  }

  lemma OnePairUsesTwo(data: bytes, maps: nat, arrays: nat)
    requires OnePair(data, maps, arrays).Ok?
    ensures |OnePair(data, maps, arrays).rest| + 2 <= |data|
  {}

  lemma {:induction false} PairsUseTwoEach(data: bytes, n: nat, maps: nat, arrays: nat)
    requires DecodePairs(data, n, maps, arrays).Ok?
    ensures |data| - |DecodePairs(data, n, maps, arrays).rest| >= 2 * n
    decreases n
  {
    if n > 0 {
      OnePairUsesTwo(data, maps, arrays);
      PairsUseTwoEach(OnePair(data, maps, arrays).rest, n - 1, maps, arrays);
    }
  }

  lemma {:induction false} ManyShrinks(data: bytes, x: bytes, n: nat, maps: nat, arrays: nat)
    requires DecodeMany(data + x, n, maps, arrays).Ok? && |DecodeMany(data + x, n, maps, arrays).rest| >= |x|
    ensures DecodeMany(data, n, maps, arrays).Ok?
    decreases |data|, 2
  {
    if n > 0 {
      DecodeShrinks(data, x, maps, arrays, true);
      ManyShrinks(Decode(data, maps, arrays, true).rest, x, n - 1, maps, arrays);
    }
  }

  lemma {:induction false} OnePairShrinks(data: bytes, x: bytes, maps: nat, arrays: nat)
    requires OnePair(data + x, maps, arrays).Ok? && |OnePair(data + x, maps, arrays).rest| >= |x|
    ensures OnePair(data, maps, arrays).Ok?
    ensures OnePair(data + x, maps, arrays) == More(OnePair(data, maps, arrays), x)
    decreases |data|, 1
  {
    DecodeShrinks(data, x, maps, arrays, false);
    DecodeShrinks(Decode(data, maps, arrays, false).rest, x, maps, arrays, false);
  }

  lemma {:induction false} PairsShrinks(data: bytes, x: bytes, n: nat, maps: nat, arrays: nat)
    requires DecodePairs(data + x, n, maps, arrays).Ok? && |DecodePairs(data + x, n, maps, arrays).rest| >= |x|
    ensures DecodePairs(data, n, maps, arrays).Ok?
    decreases |data|, 2
  {
    if n > 0 {
      OnePairShrinks(data, x, maps, arrays);
      PairsShrinks(OnePair(data, maps, arrays).rest, x, n - 1, maps, arrays);
    }
  }

  // ---------------------------------------------------------------- the four laws of splitting

  lemma {:induction false} EncAllConcat(a: seq<Value>, b: seq<Value>)
    requires EncodableAll(a) && EncodableAll(b)
    ensures EncodableAll(a + b) && EncAll(a + b) == EncAll(a) + EncAll(b)
  {
    if a == [] {
      assert a + b == b;
    } else {
      EncAllConcat(a[1..], b);
      assert (a + b)[1..] == a[1..] + b;
      Regroup(Enc(a[0]), EncAll(a[1..]), EncAll(b));
    }
  }

  lemma StrictAllCons(v: Value, es: seq<Value>)
    ensures StrictAll([v] + es) == [Loosened(v, false)] + StrictAll(es)
  {
    assert ([v] + es)[1..] == es;
  }

  lemma TailOfConcat(a: seq<Value>, b: seq<Value>)
    requires a != []
    ensures (a + b)[1..] == a[1..] + b && a + b == [a[0]] + (a[1..] + b)
  {}

  lemma {:induction false} StrictAllConcat(a: seq<Value>, b: seq<Value>)
    ensures StrictAll(a + b) == StrictAll(a) + StrictAll(b)
  {
    if a == [] {
      assert a + b == b;
    } else {
      StrictAllConcat(a[1..], b);
      StrictAllCons(a[0], a[1..] + b);
      TailOfConcat(a, b);
    }
  }

  lemma {:induction false} FitAllConcat(a: seq<Value>, b: seq<Value>)
    ensures AllFitTop(a + b) <==> AllFitTop(a) && AllFitTop(b)
  {
    if a == [] {
      assert a + b == b;
    } else {
      FitAllConcat(a[1..], b);
      assert (a + b)[1..] == a[1..] + b;
    }
  }

  lemma {:induction false} EncodableParts(es: seq<Value>, n: nat)
    requires EncodableAll(es) && n <= |es|
    ensures EncodableAll(es[..n]) && EncodableAll(es[n..])
  {
    if n > 0 {
      EncodableParts(es[1..], n - 1);
      assert es[..n][1..] == es[1..][..n - 1] && es[n..] == es[1..][n - 1..];
    }
  }

  /**
   An encoded payload is accepted exactly within the limits. Its elements come back as the decoder
   sees them, and its hashed part is the encoding of its first four elements, stamp or no stamp.
   */
  lemma SplitOfEncoded(es: seq<Value>)
    requires (|es| == 4 || |es| == 5) && EncodableAll(es)
    ensures EncodableAll(es[..4])
    ensures Split(Enc(Arr(es))) ==
            if AllFitTop(es) then Accepted(StrictAll(es), Enc(Arr(es[..4]))) else Rejected
  {
    var a, b := es[..4], es[4..];
    EncodableParts(es, 4);
    assert a + b == es;
    StrictAllConcat(a, b);
    FitAllConcat(a, b);
    SplitOfParts(a, b);
  }

  lemma SplitOfParts(a: seq<Value>, b: seq<Value>)
    requires |a| == 4 && |b| <= 1 && EncodableAll(a) && EncodableAll(b) && EncodableAll(a + b)
    ensures Split(Enc(Arr(a + b))) ==
            if AllFitTop(a) && AllFitTop(b) then Accepted(StrictAll(a) + StrictAll(b), Enc(Arr(a))) else Rejected
  {
    EncAllConcat(a, b);
    PayloadHeadOfEncoded(a + b);
    TopOfEncoded(a, EncAll(b));
    TopOfEncoded(b, []);
    assert EncAll(b) + [] == EncAll(b);
    HashedOfEncoded(a, b);
  }

  lemma PayloadHeadOfEncoded(es: seq<Value>)
    requires (|es| == 4 || |es| == 5) && EncodableAll(es)
    ensures PayloadHead(Enc(Arr(es))) == Sized(KArr, |es|, EncAll(es))
  {
    EncAnnouncesArr(es, []);
    assert Enc(Arr(es)) + [] == Enc(Arr(es));
    assert EncAll(es) + [] == EncAll(es);
  }

  /** Cutting the fifth element off the body and putting a new header in front re-encodes the first four. */
  lemma HashedOfEncoded(a: seq<Value>, b: seq<Value>)
    requires |a| == 4 && EncodableAll(a) && EncodableAll(b)
    ensures var body := EncAll(a) + EncAll(b);
            Enc(Arr(a)) == [0x94] + body[..|body| - |EncAll(b)|]
    ensures b == [] ==> a + b == a
  {
    var body := EncAll(a) + EncAll(b);
    assert body[..|body| - |EncAll(b)|] == EncAll(a);
  }

  lemma {:induction false} TopUsesOneEach(data: bytes, n: nat)
    requires DecodeTop(data, n).Ok?
    ensures |data| - |DecodeTop(data, n).rest| >= n
    decreases n
  {
    if n > 0 {
      TopUsesOneEach(Decode(data, 0, 0, false).rest, n - 1);
    }
  }

  /**
   Whatever bytes were received: the hashed part of an accepted payload is itself an accepted
   payload, it splits to itself, and it decodes to the same four elements.
   */
  lemma HashedPartIsAPayload(data: bytes)
    requires Split(data).Accepted?
    ensures |Split(data).elems| >= 4
    ensures Split(Split(data).hashed) == Accepted(Split(data).elems[..4], Split(data).hashed)
  {
    var h := PayloadHead(data);
    var first := DecodeTop(h.rest, 4);
    var es := Split(data).elems;
    assert es[..4] == first.v;
    if h.n == 4 {
      assert es == first.v + [] == first.v;
    } else {
      TopLeavesSuffix(h.rest, 4);
      var body := h.rest[..|h.rest| - |first.rest|];
      assert h.rest == body + first.rest;
      TopOfUsed(body, first.rest, 4);
      SplitOfFour(body, first.v);
    }
  }

  /** Four values behind a four-element header are a payload that splits to itself. */
  lemma SplitOfFour(body: bytes, vs: seq<Value>)
    requires DecodeTop(body, 4) == Ok(vs, [])
    ensures Split([0x94] + body) == Accepted(vs, [0x94] + body)
  {
    var hashed := [0x94] + body;
    TopUsesOneEach(body, 4);
    assert hashed[1..] == body;
    assert PayloadHead(hashed) == Sized(KArr, 4, body);
    assert DecodeTop([], 0) == Ok([], []);
    assert vs + [] == vs;
  }

  /** No accepted payload is a proper prefix of another. */
  lemma PayloadsArePrefixFree(data: bytes, x: bytes)
    requires Split(data).Accepted? && Split(data + x).Accepted?
    ensures x == []
  {
    var h := PayloadHead(data);
    HeadExtends(data, x);
    TopExtends(h.rest, x, 4);
    TopExtends(DecodeTop(h.rest, 4).rest, x, h.n - 4);
    assert [] + x == x;
  }

  lemma {:induction false} TopFits(data: bytes, n: nat)
    requires DecodeTop(data, n).Ok?
    ensures AllFitTop(DecodeTop(data, n).v)
    decreases n
  {
    if n > 0 {
      DecodedFits(data, 0, 0, false);
      var first := Decode(data, 0, 0, false);
      TopFits(first.rest, n - 1);
      var r := DecodeTop(data, n).v;
      assert r[0] == first.v && r[1..] == DecodeTop(first.rest, n - 1).v;
    }
  }

  /** Whatever was received, accepted maps nest at most 32 deep with at most 8192 pairs each. */
  lemma AcceptedIsWithinLimits(data: bytes)
    requires Split(data).Accepted?
    ensures AllFitTop(Split(data).elems) && (|Split(data).elems| == 4 || |Split(data).elems| == 5)
  {
    var h := PayloadHead(data);
    var first := DecodeTop(h.rest, 4);
    TopFits(h.rest, 4);
    TopFits(first.rest, h.n - 4);
    FitAllConcat(first.v, DecodeTop(first.rest, h.n - 4).v);
  }
}
