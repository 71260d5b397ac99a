/**
 MessagePack as the vendored quad4/msgpack codec reads and writes it for pkg/lxmf/message.go: the
 encoder with compact integers and without compact floats, and DecodeInterface with the map decoder
 of message.go installed.
 */
module MsgPack {
  import opened Basics
  import opened Octets

  /** msgpackMapMaxDepth, msgpackMapMaxPairs and the codec's own nesting limit for arrays. */
  const MAX_MAP_DEPTH := 32
  const MAX_MAP_PAIRS := 8192
  const MAX_ARRAY_DEPTH := 10_000

  const UINT32_LIMIT := 0x1_0000_0000
  const INT64_MIN := -0x8000_0000_0000_0000
  const UINT64_LIMIT := 0x1_0000_0000_0000_0000

  /**
   A value on the wire. A map is the sequence of its entries in wire order; integers are numbers,
   whatever width they came in; floats and timestamps are their bytes. `Widened(b)` is the float64
   that equals the float32 `b`.
   */
  datatype Value =
    | Nil
    | Bool(b: bool)
    | Int(n: int)
    | F64(bits: bytes)
    | F32(bits: bytes)
    | Widened(bits: bytes)
    | Str(s: bytes)
    | Bin(s: bytes)
    | Time(s: bytes)
    | Arr(elems: seq<Value>)
    | Map(entries: seq<Entry>)

  datatype Entry = Entry(key: Value, val: Value)

  datatype Parsed<+T> = Fail | Ok(v: T, rest: bytes)

  // ---------------------------------------------------------------- heads

  datatype Kind = KStr | KBin | KTime | KArr | KMap

  /** What the first byte, and the length or number behind it, announce. */
  datatype Head = Bad | Atom(v: Value, rest: bytes) | Sized(kind: Kind, n: nat, rest: bytes)

  function Signed(n: nat, w: nat): int
    requires w > 0
  {
    if n >= Pow2(8 * w - 1) then n - Pow2(8 * w) else n
  }

  datatype Numeral = Float32 | Float64 | Unsigned | TwosComplement

  /** What a code byte stands for; `w` is the number of bytes that a length or a number takes. */
  datatype Shape =
    | Fixed(v: Value)
    | Short(kind: Kind, n: nat)
    | Number(numeral: Numeral, w: nat)
    | Long(kind: Kind, w: nat)
    | Ext(n: nat)
    | LongExt(w: nat)
    | Unknown

  function ShapeOf(c: byte): Shape {
    if c <= 0x7F then Fixed(Int(c))
    else if c <= 0x8F then Short(KMap, c - 0x80)
    else if c <= 0x9F then Short(KArr, c - 0x90)
    else if c <= 0xBF then Short(KStr, c - 0xA0)
    else if c >= 0xE0 then Fixed(Int(c - 256))
    else
      match c
      case 0xC0 => Fixed(Nil)
      case 0xC2 => Fixed(Bool(false))
      case 0xC3 => Fixed(Bool(true))
      case 0xC4 => Long(KBin, 1)
      case 0xC5 => Long(KBin, 2)
      case 0xC6 => Long(KBin, 4)
      case 0xC7 => LongExt(1)
      case 0xC8 => LongExt(2)
      case 0xC9 => LongExt(4)
      case 0xCA => Number(Float32, 4)
      case 0xCB => Number(Float64, 8)
      case 0xCC => Number(Unsigned, 1)
      case 0xCD => Number(Unsigned, 2)
      case 0xCE => Number(Unsigned, 4)
      case 0xCF => Number(Unsigned, 8)
      case 0xD0 => Number(TwosComplement, 1)
      case 0xD1 => Number(TwosComplement, 2)
      case 0xD2 => Number(TwosComplement, 4)
      case 0xD3 => Number(TwosComplement, 8)
      case 0xD4 => Ext(1)
      case 0xD5 => Ext(2)
      case 0xD6 => Ext(4)
      case 0xD7 => Ext(8)
      case 0xD8 => Ext(16)
      case 0xD9 => Long(KStr, 1)
      case 0xDA => Long(KStr, 2)
      case 0xDB => Long(KStr, 4)
      case 0xDC => Long(KArr, 2)
      case 0xDD => Long(KArr, 4)
      case 0xDE => Long(KMap, 2)
      case 0xDF => Long(KMap, 4)
      case _ => Unknown
  }

  function NumberOf(numeral: Numeral, bits: bytes): Value {
    match numeral
    case Float32 => F32(bits)
    case Float64 => F64(bits)
    case Unsigned => Int(FromBE(bits))
    case TwosComplement => Int(if bits == [] then 0 else Signed(FromBE(bits), |bits|))
  }

  /** An extension: only the timestamp type, -1, is registered. */
  function ExtOf(n: nat, r: bytes): Head {
    if |r| < 1 || r[0] != 0xFF then Bad else Sized(KTime, n, r[1..])
  }

  /** The head of a shape in front of the bytes `r`. */
  function HeadOf(s: Shape, r: bytes): (h: Head)
    ensures h != Bad ==> |h.rest| <= |r|
  {
    match s
    case Fixed(v) => Atom(v, r)
    case Short(kind, n) => Sized(kind, n, r)
    case Number(numeral, w) => if |r| < w then Bad else Atom(NumberOf(numeral, r[..w]), r[w..])
    case Long(kind, w) => if |r| < w then Bad else Sized(kind, FromBE(r[..w]), r[w..])
    case Ext(n) => ExtOf(n, r)
    case LongExt(w) => if |r| < w then Bad else ExtOf(FromBE(r[..w]), r[w..])
    case Unknown => Bad
  }

  function ParseHead(data: bytes): (h: Head)
    ensures h != Bad ==> |h.rest| < |data|
  {
    if data == [] then Bad else HeadOf(ShapeOf(data[0]), data[1..])
  }

  // ---------------------------------------------------------------- decoding

  /** A Go value of this kind can be a map key. */
  predicate Comparable(v: Value) {
    !v.Bin? && !v.Arr? && !v.Map?
  }

  /** An element of an array is decoded loosely: byte strings become strings, float32 becomes float64. */
  function LoosenAtom(v: Value, loose: bool): Value {
    if loose && v.F32? then Widened(v.bits) else v
  }

  /** A string, a byte string or a timestamp of `n` bytes. */
  function TextValue(kind: Kind, n: nat, rest: bytes, loose: bool): (r: Parsed<Value>)
    ensures r.Ok? ==> |r.rest| <= |rest|
  {
    if n > |rest| || (kind == KTime && n != 4 && n != 8 && n != 12) then Fail
    else Ok(if kind == KStr || (kind == KBin && loose) then Str(rest[..n])
            else if kind == KBin then Bin(rest[..n]) else Time(rest[..n]), rest[n..])
  }

  /**
   DecodeInterface (`loose` false) and DecodeInterfaceLoose. `maps` and `arrays` are the two depth
   counters.
   */
  function Decode(data: bytes, maps: nat, arrays: nat, loose: bool): (r: Parsed<Value>)
    ensures r.Ok? ==> |r.rest| < |data|
    decreases |data|, 0
  {
    if data == [] then Fail else ByHead(ParseHead(data), maps, arrays, loose)
  }

  function Left(h: Head): nat {
    if h.Bad? then 0 else |h.rest|
  }

  function ByHead(h: Head, maps: nat, arrays: nat, loose: bool): (r: Parsed<Value>)
    ensures r.Ok? ==> |r.rest| <= Left(h)
    decreases Left(h), 5
  {
    match h
    case Bad => Fail
    case Atom(v, rest) => Ok(LoosenAtom(v, loose), rest)
    case Sized(kind, n, rest) => SizedValue(kind, n, rest, maps, arrays, loose)
  }

  function SizedValue(kind: Kind, n: nat, rest: bytes, maps: nat, arrays: nat, loose: bool): (r: Parsed<Value>)
    ensures r.Ok? ==> |r.rest| <= |rest|
    decreases |rest|, 4
  {
    match kind
    case KArr => ArrValue(n, rest, maps, arrays)
    case KMap => MapValue(n, rest, maps, arrays)
    case _ => TextValue(kind, n, rest, loose)
  }

  function ArrValue(n: nat, rest: bytes, maps: nat, arrays: nat): (r: Parsed<Value>)
    ensures r.Ok? ==> |r.rest| <= |rest|
    decreases |rest|, 3
  {
    if n > |rest| then Fail else
      match DecodeMany(rest, n, maps, arrays + 1)
      case Fail => Fail
      case Ok(vs, rest') => Ok(Arr(vs), rest')
  }

  function MapValue(n: nat, rest: bytes, maps: nat, arrays: nat): (r: Parsed<Value>)
    ensures r.Ok? ==> |r.rest| <= |rest|
    decreases |rest|, 3
  {
    if maps >= MAX_MAP_DEPTH || n > |rest| / 2 || n > MAX_MAP_PAIRS then Fail else
      match DecodePairs(rest, n, maps + 1, arrays)
      case Fail => Fail
      case Ok(es, rest') => Ok(Map(es), rest')
  }

  /** An element of an array, which is decoded loosely. */
  function OneElement(data: bytes, maps: nat, arrays: nat): (r: Parsed<Value>)
    ensures r.Ok? ==> |r.rest| < |data|
    decreases |data|, 1
  {
    if arrays > MAX_ARRAY_DEPTH then Fail else Decode(data, maps, arrays, true)
  }

  /** The elements of an array; `arrays` is the nesting depth they are at. */
  function DecodeMany(data: bytes, n: nat, maps: nat, arrays: nat): (r: Parsed<seq<Value>>)
    ensures r.Ok? ==> |r.rest| <= |data| && |r.v| == n
    decreases |data|, 2
  {
    if n == 0 then Ok([], data)
    else
      match OneElement(data, maps, arrays)
      case Fail => Fail
      case Ok(v, rest) =>
        match DecodeMany(rest, n - 1, maps, arrays)
        case Fail => Fail
        case Ok(vs, rest') => Ok([v] + vs, rest')
  }

  /** One key, which must be usable as one, and its value. */
  function OnePair(data: bytes, maps: nat, arrays: nat): (r: Parsed<Entry>)
    ensures r.Ok? ==> |r.rest| < |data|
    decreases |data|, 1
  {
    match Decode(data, maps, arrays, false)
    case Fail => Fail
    case Ok(k, rest) =>
      if !Comparable(k) then Fail else
      match Decode(rest, maps, arrays, false)
      case Fail => Fail
      case Ok(v, rest') => Ok(Entry(k, v), rest')
  }

  /** The entries of a map, as the loop of decodeMap reads them. */
  function DecodePairs(data: bytes, n: nat, maps: nat, arrays: nat): (r: Parsed<seq<Entry>>)
    ensures r.Ok? ==> |r.rest| <= |data| && |r.v| == n
    decreases |data|, 2
  {
    if n == 0 then Ok([], data)
    else
      match OnePair(data, maps, arrays)
      case Fail => Fail
      case Ok(e, rest) =>
        match DecodePairs(rest, n - 1, maps, arrays)
        case Fail => Fail
        case Ok(es, rest') => Ok([e] + es, rest')
  }

  // ---------------------------------------------------------------- encoding

  function EncUint(n: nat): bytes {
    if n <= 0x7F then [n]
    else if n <= 0xFF then [0xCC] + ToBE(n, 1)
    else if n <= 0xFFFF then [0xCD] + ToBE(n, 2)
    else if n <= 0xFFFF_FFFF then [0xCE] + ToBE(n, 4)
    else [0xCF] + ToBE(n, 8)
  }

  function EncInt(n: int): bytes
    requires n >= INT64_MIN
  {
    if n >= 0 then EncUint(n)
    else if n >= -32 then [n + 256]
    else if n >= -0x80 then [0xD0] + ToBE(n + 0x100, 1)
    else if n >= -0x8000 then [0xD1] + ToBE(n + 0x1_0000, 2)
    else if n >= -0x8000_0000 then [0xD2] + ToBE(n + 0x1_0000_0000, 4)
    else [0xD3] + ToBE(n + UINT64_LIMIT, 8)
  }

  function EncStrLen(n: nat): bytes {
    if n < 32 then [0xA0 + n]
    else if n < 256 then [0xD9] + ToBE(n, 1)
    else if n <= 0xFFFF then [0xDA] + ToBE(n, 2)
    else [0xDB] + ToBE(n, 4)
  }

  function EncBinLen(n: nat): bytes {
    if n < 256 then [0xC4] + ToBE(n, 1)
    else if n <= 0xFFFF then [0xC5] + ToBE(n, 2)
    else [0xC6] + ToBE(n, 4)
  }

  function EncArrLen(n: nat): bytes {
    if n < 16 then [0x90 + n]
    else if n <= 0xFFFF then [0xDC] + ToBE(n, 2)
    else [0xDD] + ToBE(n, 4)
  }

  function EncMapLen(n: nat): bytes {
    if n < 16 then [0x80 + n]
    else if n <= 0xFFFF then [0xDE] + ToBE(n, 2)
    else [0xDF] + ToBE(n, 4)
  }

  function EncTimeLen(n: nat): bytes {
    if n == 4 then [0xD6, 0xFF] else if n == 8 then [0xD7, 0xFF] else [0xC7] + ToBE(n, 1) + [0xFF]
  }

  /** What the encoder can be given: numbers in range, sizes that fit their length fields. */
  predicate Encodable(v: Value)
    decreases v, 0
  {
    match v
    case Nil => true
    case Bool(_) => true
    case Int(n) => INT64_MIN <= n < UINT64_LIMIT
    case F64(bits) => |bits| == 8
    case F32(bits) => |bits| == 4
    case Widened(_) => false
    case Str(s) => |s| < UINT32_LIMIT
    case Bin(s) => |s| < UINT32_LIMIT
    case Time(s) => |s| == 4 || |s| == 8 || |s| == 12
    case Arr(es) => |es| < UINT32_LIMIT && EncodableAll(es)
    case Map(es) => |es| < UINT32_LIMIT && EncodablePairs(es)
  }

  predicate EncodableAll(es: seq<Value>)
    decreases es, 1
  {
    es == [] || (Encodable(es[0]) && EncodableAll(es[1..]))
  }

  predicate EncodableEntry(e: Entry)
    decreases e, 1
  {
    Encodable(e.key) && Encodable(e.val)
  }

  predicate EncodablePairs(es: seq<Entry>)
    decreases es, 2
  {
    es == [] || (EncodableEntry(es[0]) && EncodablePairs(es[1..]))
  }

  function Enc(v: Value): (b: bytes)
    requires Encodable(v)
    ensures |b| > 0
    decreases v, 0
  {
    match v
    case Nil => [0xC0]
    case Bool(b) => [if b then 0xC3 else 0xC2]
    case Int(n) => EncInt(n)
    case F64(bits) => [0xCB] + bits
    case F32(bits) => [0xCA] + bits
    case Str(s) => EncStrLen(|s|) + s
    case Bin(s) => EncBinLen(|s|) + s
    case Time(s) => EncTimeLen(|s|) + s
    case Arr(es) => EncArrLen(|es|) + EncAll(es)
    case Map(es) => EncMapLen(|es|) + EncPairs(es)
  }

  function EncAll(es: seq<Value>): (b: bytes)
    requires EncodableAll(es)
    ensures |b| >= |es|
    decreases es, 1
  {
    if es == [] then [] else Enc(es[0]) + EncAll(es[1..])
  }

  function EncEntry(e: Entry): (b: bytes)
    requires EncodableEntry(e)
    ensures |b| >= 2
    decreases e, 1
  {
    Enc(e.key) + Enc(e.val)
  }

  function EncPairs(es: seq<Entry>): (b: bytes)
    requires EncodablePairs(es)
    ensures |b| >= 2 * |es|
    decreases es, 2
  {
    if es == [] then [] else EncEntry(es[0]) + EncPairs(es[1..])
  }
}
