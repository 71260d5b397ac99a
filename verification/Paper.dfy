/** The lxm:// paper URI of pkg/lxmf/paper.go over base64url, section 5 of RFC 4648. */
module Paper {
  import opened Basics

  const QR_MAX_STORAGE := 2953
  const PREFIX := "lxm://"
  const PAPER_MDU := ((QR_MAX_STORAGE - |PREFIX|) * 6) / 8

  datatype Encoded = Uri(text: string) | EmptyPayload | PayloadTooLong
  datatype Decoded = Payload(data: bytes) | MissingPrefix | EmptyBody | BadBase64 | DecodedTooLong

  // ---------------------------------------------------------------- base64url with padding

  type sextet = v: int | 0 <= v < 64

  function Char(v: sextet): char {
    if v < 26 then (65 + v) as char else if v < 52 then (71 + v) as char else if v < 62 then (v - 4) as char
    else if v == 62 then '-' else '_'
  }

  function Val(c: char): Option<sextet> {
    var n := c as int;
    if 65 <= n < 91 then Some(n - 65) else if 97 <= n < 123 then Some(n - 71) else if 48 <= n < 58 then Some(n + 4)
    else if c == '-' then Some(62) else if c == '_' then Some(63) else None
  }

  lemma ValOfChar(v: sextet)
    ensures Val(Char(v)) == Some(v) && Char(v) != '=' && Char(v) != '\r' && Char(v) != '\n'
  {}

  lemma CharOfVal(c: char)
    requires Val(c).Some?
    ensures Char(Val(c).value) == c && c != '='
  {}

  /** The alphabet of section 5 of RFC 4648. */
  lemma Alphabet(v: sextet)
    ensures v < 26 ==> Char(v) as int == 'A' as int + v
    ensures 26 <= v < 52 ==> Char(v) as int == 'a' as int + v - 26
    ensures 52 <= v < 62 ==> Char(v) as int == '0' as int + v - 52
    ensures v == 62 ==> Char(v) == '-'
    ensures v == 63 ==> Char(v) == '_'
  {}

  function Quad(a: byte, b: byte, c: byte): string {
    [Char(a / 4), Char((a % 4) * 16 + b / 16), Char((b % 16) * 4 + c / 64), Char(c % 64)]
  }

  /** base64.URLEncoding.EncodeToString */
  function Encode(s: bytes): string {
    if |s| == 0 then ""
    else if |s| == 1 then Quad(s[0], 0, 0)[..2] + "=="
    else if |s| == 2 then Quad(s[0], s[1], 0)[..3] + "="
    else Quad(s[0], s[1], s[2]) + Encode(s[3..])
  }

  /** The decoder passes over line breaks wherever they stand. */
  function WithoutBreaks(t: string): string {
    if t == "" then "" else (if t[0] == '\r' || t[0] == '\n' then "" else [t[0]]) + WithoutBreaks(t[1..])
  }

  function FirstByte(v: sextet, w: sextet): byte {
    v * 4 + w / 16
  }

  function SecondByte(w: sextet, x: sextet): byte {
    (w % 16) * 16 + x / 4
  }

  function ThirdByte(x: sextet, y: sextet): byte {
    (x % 4) * 64 + y
  }

  /** The quanta of four characters; padding ends the text, and the bits it leaves over may be set. */
  function Quanta(t: string): Option<bytes> {
    if t == "" then Some([])
    else if |t| < 4 || Val(t[0]).None? || Val(t[1]).None? then None
    else
      var v, w := Val(t[0]).value, Val(t[1]).value;
      if t[2..] == "==" then Some([FirstByte(v, w)])
      else if Val(t[2]).None? then None
      else
        var x := Val(t[2]).value;
        if t[3..] == "=" then Some([FirstByte(v, w), SecondByte(w, x)])
        else if Val(t[3]).None? then None
        else
          match Quanta(t[4..])
          case None => None
          case Some(rest) => Some([FirstByte(v, w), SecondByte(w, x), ThirdByte(x, Val(t[3]).value)] + rest)
  }

  /** base64.URLEncoding.DecodeString */
  function DecodeString(t: string): Option<bytes> {
    Quanta(WithoutBreaks(t))
  }

  // ---------------------------------------------------------------- the URI

  /** strings.TrimRight(t, "=") */
  function TrimPadding(t: string): string {
    if t != "" && t[|t| - 1] == '=' then TrimPadding(t[..|t| - 1]) else t
  }

  function Repeat(k: nat): (t: string)
    ensures |t| == k
  {
    if k == 0 then "" else Repeat(k - 1) + "="
  }

  function PaperURI(data: bytes): Encoded {
    if data == [] then EmptyPayload
    else if |data| > PAPER_MDU then PayloadTooLong
    else Uri(PREFIX + TrimPadding(Encode(data)))
  }

  function Pad(t: string): string {
    if |t| % 4 == 0 then t else t + Repeat(4 - |t| % 4)
  }

  function DecodePaperURI(uri: string): Decoded {
    if !(PREFIX <= uri) then MissingPrefix
    else
      var encoded := uri[|PREFIX|..];
      if encoded == "" then EmptyBody
      else
        match DecodeString(Pad(TrimPadding(encoded)))
        case None => BadBase64
        case Some(data) => if |data| > PAPER_MDU then DecodedTooLong else Payload(data)
  }

  // ---------------------------------------------------------------- what the encoder writes

  /** The unpadded form, by its own definition. */
  function Body(s: bytes): string {
    if |s| == 0 then ""
    else if |s| == 1 then Quad(s[0], 0, 0)[..2]
    else if |s| == 2 then Quad(s[0], s[1], 0)[..3]
    else Quad(s[0], s[1], s[2]) + Body(s[3..])
  }

  /** Neither padding nor a line break. */
  predicate Plain(t: string) {
    forall i | 0 <= i < |t| :: t[i] != '=' && t[i] != '\r' && t[i] != '\n'
  }

  lemma QuadIsPlain(a: byte, b: byte, c: byte)
    ensures Plain(Quad(a, b, c))
  {
    ValOfChar(a / 4);
    ValOfChar((a % 4) * 16 + b / 16);
    ValOfChar((b % 16) * 4 + c / 64);
    ValOfChar(c % 64);
  }

  lemma {:induction false} BodyIsPlain(s: bytes)
    ensures Plain(Body(s))
  {
    if |s| > 0 {
      QuadIsPlain(s[0], if |s| > 1 then s[1] else 0, if |s| > 2 then s[2] else 0);
      if |s| >= 3 {
        BodyIsPlain(s[3..]);
      }
    }
  }

  lemma {:induction false} BodyLength(s: bytes)
    ensures |Body(s)| == (4 * |s| + 2) / 3
  {
    if |s| >= 3 {
      BodyLength(s[3..]);
    }
  }

  lemma PadBehind(q: string, t: string)
    requires |q| == 4
    ensures Pad(q + t) == q + Pad(t)
  {
    assert |q + t| % 4 == |t| % 4;
  }

  lemma {:induction false} EncodeIsPadded(s: bytes)
    ensures Encode(s) == Pad(Body(s))
  {
    if |s| == 1 {
      assert Repeat(2) == "==";
    } else if |s| == 2 {
      assert Repeat(1) == "=";
    } else if |s| >= 3 {
      EncodeIsPadded(s[3..]);
      PadBehind(Quad(s[0], s[1], s[2]), Body(s[3..]));
    }
  }

  lemma BodyFacts(s: bytes)
    ensures Plain(Body(s)) && |Body(s)| == (4 * |s| + 2) / 3 && Encode(s) == Pad(Body(s))
  {
    BodyIsPlain(s);
    BodyLength(s);
    EncodeIsPadded(s);
  }

  lemma {:induction false} TrimOfPadded(t: string, k: nat)
    requires Plain(t)
    ensures TrimPadding(t + Repeat(k)) == t
  {
    if k == 0 {
      assert t + Repeat(0) == t;
    } else {
      TrimOfPadded(t, k - 1);
      assert (t + Repeat(k))[..|t| + k - 1] == t + Repeat(k - 1);
    }
  }

  lemma {:induction false} PlainStays(t: string)
    requires forall i | 0 <= i < |t| :: t[i] != '\r' && t[i] != '\n'
    ensures WithoutBreaks(t) == t
  {
    if t != "" {
      PlainStays(t[1..]);
    }
  }

  lemma {:induction false} RepeatIsPadding(k: nat)
    ensures forall i | 0 <= i < k :: Repeat(k)[i] == '='
  {
    if k > 0 {
      RepeatIsPadding(k - 1);
    }
  }

  lemma PadHasNoBreaks(t: string)
    requires Plain(t)
    ensures WithoutBreaks(Pad(t)) == Pad(t)
  {
    if |t| % 4 != 0 {
      RepeatIsPadding(4 - |t| % 4);
    }
    PlainStays(Pad(t));
  }

  lemma BytesOfQuad(a: byte, b: byte, c: byte)
    ensures FirstByte(a / 4, (a % 4) * 16 + b / 16) == a
    ensures SecondByte((a % 4) * 16 + b / 16, (b % 16) * 4 + c / 64) == b
    ensures ThirdByte((b % 16) * 4 + c / 64, c % 64) == c
  {}

  lemma QuadVals(a: byte, b: byte, c: byte)
    ensures var q := Quad(a, b, c);
            && Val(q[0]) == Some(a / 4) && Val(q[1]) == Some((a % 4) * 16 + b / 16)
            && Val(q[2]) == Some((b % 16) * 4 + c / 64) && Val(q[3]) == Some(c % 64)
  {
    ValOfChar(a / 4);
    ValOfChar((a % 4) * 16 + b / 16);
    ValOfChar((b % 16) * 4 + c / 64);
    ValOfChar(c % 64);
  }

  /** The four characters write the 24 bits of three bytes in sixes. */
  lemma QuadIsNumber(a: byte, b: byte, c: byte)
    ensures var q := Quad(a, b, c);
            && (forall i | 0 <= i < 4 :: Val(q[i]).Some?)
            && Val(q[0]).value * 262144 + Val(q[1]).value * 4096 + Val(q[2]).value * 64 + Val(q[3]).value
               == a * 65536 + b * 256 + c
  {
    QuadVals(a, b, c);
  }

  lemma QuantaOfQuad(a: byte, b: byte, c: byte, rest: string, s: bytes)
    requires Quanta(rest) == Some(s)
    ensures Quanta(Quad(a, b, c) + rest) == Some([a, b, c] + s)
  {
    var t := Quad(a, b, c) + rest;
    QuadVals(a, b, c);
    QuadIsPlain(a, b, c);
    BytesOfQuad(a, b, c);
    assert t[4..] == rest && t[2..][0] == t[2] && t[3..][0] == t[3];
  }

  lemma QuantaOfOne(a: byte)
    ensures Quanta(Quad(a, 0, 0)[..2] + "==") == Some([a])
  {
    QuadVals(a, 0, 0);
    BytesOfQuad(a, 0, 0);
    assert (Quad(a, 0, 0)[..2] + "==")[2..] == "==";
  }

  lemma QuantaOfTwo(a: byte, b: byte)
    ensures Quanta(Quad(a, b, 0)[..3] + "=") == Some([a, b])
  {
    var q := Quad(a, b, 0);
    QuadVals(a, b, 0);
    QuadIsPlain(a, b, 0);
    BytesOfQuad(a, b, 0);
    ShortQuantum(q[0], q[1], q[2]);
    assert q[..3] + "=" == [q[0], q[1], q[2], '='];
  }

  lemma ShortQuantum(c: char, d: char, e: char)
    requires Val(c).Some? && Val(d).Some? && Val(e).Some? && e != '='
    ensures Quanta([c, d, e, '=']) ==
            Some([FirstByte(Val(c).value, Val(d).value), SecondByte(Val(d).value, Val(e).value)])
  {
    var t := [c, d, e, '='];
    assert t[3..] == "=" && t[2..][0] == e;
  }

  lemma {:induction false} QuantaOfEncoded(s: bytes)
    ensures Quanta(Encode(s)) == Some(s)
  {
    if |s| == 1 {
      QuantaOfOne(s[0]);
      assert s == [s[0]];
    } else if |s| == 2 {
      QuantaOfTwo(s[0], s[1]);
      assert s == [s[0], s[1]];
    } else if |s| >= 3 {
      QuantaOfEncoded(s[3..]);
      QuantaOfMore(s);
    }
  }

  lemma QuantaOfMore(s: bytes)
    requires |s| >= 3 && Quanta(Encode(s[3..])) == Some(s[3..])
    ensures Quanta(Encode(s)) == Some(s)
  {
    QuantaOfQuad(s[0], s[1], s[2], Encode(s[3..]), s[3..]);
    ThreeAndMore(s);
  }

  lemma ThreeAndMore(s: bytes)
    requires |s| >= 3
    ensures s == [s[0], s[1], s[2]] + s[3..]
  {}

  // ---------------------------------------------------------------- the laws

  /** A payload survives, also behind any number of '=' characters. */
  lemma PaperRoundTrip(data: bytes, k: nat)
    requires 1 <= |data| <= PAPER_MDU
    ensures PaperURI(data).Uri?
    ensures DecodePaperURI(PaperURI(data).text + Repeat(k)) == Payload(data)
  {
    BodyFacts(data);
    var body := Body(data);
    EncodeTrims(data);
    var uri := PREFIX + body + Repeat(k);
    assert uri == PREFIX + (body + Repeat(k));
    assert uri[|PREFIX|..] == body + Repeat(k);
    TrimOfPadded(body, k);
    PadHasNoBreaks(body);
    QuantaOfEncoded(data);
  }

  lemma EncodeTrims(data: bytes)
    ensures TrimPadding(Encode(data)) == Body(data)
  {
    BodyFacts(data);
    var body := Body(data);
    if |body| % 4 == 0 {
      TrimOfPadded(body, 0);
      assert body + Repeat(0) == body;
    } else {
      TrimOfPadded(body, 4 - |body| % 4);
    }
  }

  /** A payload is printed exactly when its URI fits the QR code: the limit is the largest that does. */
  lemma PaperFitsIff(data: bytes)
    requires data != []
    ensures PaperURI(data).Uri? <==> |PREFIX + TrimPadding(Encode(data))| <= QR_MAX_STORAGE
    ensures |PREFIX + TrimPadding(Encode(data))| == |PREFIX| + (4 * |data| + 2) / 3
  {
    EncodeTrims(data);
    BodyFacts(data);
  }

  /** What is left over in the last character is zero. */
  predicate NoSpareBits(t: string) {
    && (|t| % 4 == 2 ==> Val(t[|t| - 1]).Some? && Val(t[|t| - 1]).value % 16 == 0)
    && (|t| % 4 == 3 ==> Val(t[|t| - 1]).Some? && Val(t[|t| - 1]).value % 4 == 0)
  }

  lemma CharsOfBytes(v: sextet, w: sextet, x: sextet, y: sextet)
    ensures var a, b, c := FirstByte(v, w), SecondByte(w, x), ThirdByte(x, y);
            && a / 4 == v && (a % 4) * 16 + b / 16 == w && (b % 16) * 4 + c / 64 == x && c % 64 == y
    ensures w % 16 == 0 <==> (FirstByte(v, w) % 4) * 16 == w
    ensures x % 4 == 0 <==> (SecondByte(w, x) % 16) * 4 == x
  {}

  lemma LastQuantum(t: string)
    requires Plain(t) && |t| < 4 && |t| != 1 && Quanta(Pad(t)).Some?
    ensures Body(Quanta(Pad(t)).value) == t <==> NoSpareBits(t)
  {
    assert Repeat(1) == "=" && Repeat(2) == "==";
    var p := Pad(t);
    if |t| == 2 {
      assert p[2..] == "==";
      CharOfVal(t[0]);
      CharOfVal(t[1]);
      CharsOfBytes(Val(t[0]).value, Val(t[1]).value, 0, 0);
      LeadChars(t, FirstByte(Val(t[0]).value, Val(t[1]).value));
    } else if |t| == 3 {
      assert p[3..] == "=" && p[2] == t[2];
      CharOfVal(t[0]);
      CharOfVal(t[1]);
      CharOfVal(t[2]);
      CharsOfBytes(Val(t[0]).value, Val(t[1]).value, Val(t[2]).value, 0);
      LeadPair(t, FirstByte(Val(t[0]).value, Val(t[1]).value), SecondByte(Val(t[1]).value, Val(t[2]).value));
    }
  }

  lemma NoLoneChar(t: string)
    requires Plain(t) && Quanta(Pad(t)).Some?
    ensures |t| != 1
  {
    assert Repeat(3) == "===";
  }

  lemma LeadChars(t: string, a: byte)
    requires |t| == 2 && Val(t[0]) == Some(a / 4) && Char(a / 4) == t[0]
    requires Val(t[1]).Some? && Char(Val(t[1]).value) == t[1]
    ensures Body([a]) == t <==> (a % 4) * 16 == Val(t[1]).value
  {
    ValOfChar((a % 4) * 16);
    assert Body([a]) == [Char(a / 4), Char((a % 4) * 16)];
    assert t == [t[0], t[1]];
  }

  lemma LeadPair(t: string, a: byte, b: byte)
    requires |t| == 3 && Char(a / 4) == t[0] && Char((a % 4) * 16 + b / 16) == t[1]
    requires Val(t[2]).Some? && Char(Val(t[2]).value) == t[2]
    ensures Body([a, b]) == t <==> (b % 16) * 4 == Val(t[2]).value
  {
    ValOfChar((b % 16) * 4);
    assert Body([a, b]) == [Char(a / 4), Char((a % 4) * 16 + b / 16), Char((b % 16) * 4)];
    assert t == [t[0], t[1], t[2]];
  }

  /** Re-encoding what a plain body decodes to gives the body back exactly when it has no spare bits. */
  lemma {:induction false} ReencodeIff(t: string)
    requires Plain(t) && Quanta(Pad(t)).Some?
    ensures Body(Quanta(Pad(t)).value) == t <==> NoSpareBits(t)
  {
    NoLoneChar(t);
    if |t| < 4 {
      LastQuantum(t);
    } else {
      var rest := t[4..];
      FullQuantum(t);
      ReencodeIff(rest);
      assert t == t[..4] + rest;
      if rest != "" {
        assert t[|t| - 1] == rest[|rest| - 1];
      }
      var data := Quanta(Pad(t)).value;
      assert Body(data) == t[..4] + Body(data[3..]);
      if Body(data) == t {
        assert Body(data)[4..] == rest && Body(data)[4..] == Body(data[3..]);
      }
    }
  }

  lemma FullQuantum(t: string)
    requires Plain(t) && |t| >= 4 && Quanta(Pad(t)).Some?
    ensures Pad(t)[4..] == Pad(t[4..]) && Quanta(Pad(t[4..])).Some?
    ensures var data := Quanta(Pad(t)).value;
            && |data| >= 3 && data[3..] == Quanta(Pad(t[4..])).value && Quad(data[0], data[1], data[2]) == t[..4]
  {
    var q, rest := t[..4], Pad(t[4..]);
    PadBehind(q, t[4..]);
    assert q + t[4..] == t;
    assert (q + rest)[4..] == rest;
    QuantaStep(q, rest);
  }

  /** Four characters without padding are three bytes. */
  lemma QuantaStep(q: string, rest: string)
    requires |q| == 4 && Plain(q) && Quanta(q + rest).Some?
    ensures Quanta(rest).Some?
    ensures var data := Quanta(q + rest).value;
            && |data| >= 3 && data[3..] == Quanta(rest).value && Quad(data[0], data[1], data[2]) == q
  {
    var p := q + rest;
    assert p[4..] == rest;
    assert p[2..][0] == q[2] && p[3..][0] == q[3];
    CharOfVal(q[0]);
    CharOfVal(q[1]);
    CharOfVal(q[2]);
    CharOfVal(q[3]);
    CharsOfBytes(Val(q[0]).value, Val(q[1]).value, Val(q[2]).value, Val(q[3]).value);
  }

  /** Of the many URIs that carry a payload, the canonical one is printed. */
  predicate Canonical(uri: string) {
    PREFIX <= uri && Plain(uri[|PREFIX|..]) && NoSpareBits(uri[|PREFIX|..])
  }

  /** An accepted URI is the one that PaperURI prints for its payload exactly when it is canonical. */
  lemma PrintedIffCanonical(uri: string)
    requires DecodePaperURI(uri).Payload?
    ensures PaperURI(DecodePaperURI(uri).data) == Uri(uri) <==> Canonical(uri)
  {
    var body, data := uri[|PREFIX|..], DecodePaperURI(uri).data;
    assert uri == PREFIX + body;
    EncodeTrims(data);
    BodyFacts(data);
    if Canonical(uri) {
      TrimOfPadded(body, 0);
      assert body + Repeat(0) == body;
      PadHasNoBreaks(body);
      ReencodeIff(body);
      assert data != [] by {
        assert Body([]) == "";
      }
    } else if PaperURI(data) == Uri(uri) {
      assert (PREFIX + Body(data))[|PREFIX|..] == Body(data);
      BodyHasNoSpareBits(data);
    }
  }

  lemma BodyHasNoSpareBits(s: bytes)
    ensures NoSpareBits(Body(s))
  {
    BodyFacts(s);
    PadHasNoBreaks(Body(s));
    QuantaOfEncoded(s);
    ReencodeIff(Body(s));
  }

  // ---------------------------------------------------------------- bodies that carry nothing

  predicate OnlyBreaks(t: string) {
    forall i | 0 <= i < |t| :: t[i] == '\r' || t[i] == '\n'
  }

  lemma {:induction false} NothingButBreaks(t: string)
    ensures WithoutBreaks(t) == "" <==> OnlyBreaks(t)
  {
    if t != "" {
      NothingButBreaks(t[1..]);
      if OnlyBreaks(t) {
        assert OnlyBreaks(t[1..]);
      } else if t[0] == '\r' || t[0] == '\n' {
        var i :| 0 <= i < |t| && t[i] != '\r' && t[i] != '\n';
        assert t[1..][i - 1] == t[i];
      }
    }
  }

  /** Every quantum yields at least a byte. */
  lemma QuantaIsEmptyIff(t: string)
    ensures Quanta(t) == Some([]) <==> t == ""
  {}

  lemma PaddedHoldsPadding(t: string)
    requires |t| % 4 != 0
    ensures !OnlyBreaks(Pad(t))
  {
    RepeatIsPadding(4 - |t| % 4);
    assert Pad(t)[|t|] == '=';
  }

  /**
   DecodePaperURI accepts a URI as one of an empty payload exactly when its body is not empty and, but
   for trailing padding, consists of line breaks, a multiple of four of them. PaperURI prints none such.
   */
  lemma CarriesNothingIff(uri: string)
    ensures DecodePaperURI(uri) == Payload([]) <==>
              && PREFIX <= uri && uri != PREFIX
              && var t := TrimPadding(uri[|PREFIX|..]); |t| % 4 == 0 && OnlyBreaks(t)
  {
    if PREFIX <= uri {
      var body := uri[|PREFIX|..];
      assert uri == PREFIX + body;
      var t := TrimPadding(body);
      NothingButBreaks(Pad(t));
      QuantaIsEmptyIff(WithoutBreaks(Pad(t)));
      if |t| % 4 != 0 {
        PaddedHoldsPadding(t);
      }
    }
  }

  /** The shortest of them; its payload has no URI of its own. */
  lemma LonePaddingCarriesNothing()
    ensures DecodePaperURI("lxm://=") == Payload([]) && PaperURI([]) == EmptyPayload
  {
    CarriesNothingIff("lxm://=");
    var body := "lxm://="[|PREFIX|..];
    assert body == "=";
    assert TrimPadding("=") == "" by {
      assert "="[..0] == "";
    }
    assert PREFIX <= "lxm://=";
  }

  lemma QuantumWithSpareBit()
    ensures Quanta("AB==") == Some([0])
  {
    var t := "AB==";
    assert t[2..] == "==";
    assert Val('A') == Some(0) && Val('B') == Some(1);
  }

  lemma PaddedPair(t: string)
    requires |t| == 2
    ensures Pad(t) == t + "=="
  {
    assert Repeat(1) == "=" && Repeat(2) == "==";
  }

  lemma BodyOfZero()
    ensures Body([0]) == "AA"
  {
    assert Char(0) == 'A';
    assert Quad(0, 0, 0)[..2] == ['A', 'A'];
  }

  /** An accepted URI that is not the printed one: its last character has a spare bit. */
  lemma SpareBitsAreAccepted()
    ensures DecodePaperURI("lxm://AB") == Payload([0]) && !Canonical("lxm://AB")
    ensures PaperURI([0]) == Uri(PREFIX + "AA")
  {
    var uri, body := "lxm://AB", "AB";
    assert uri[|PREFIX|..] == body && PREFIX <= uri;
    assert TrimPadding(body) == body;
    PaddedPair(body);
    assert body + "==" == "AB==";
    PlainStays("AB==");
    QuantumWithSpareBit();
    assert Val('B') == Some(1);
    EncodeTrims([0]);
    BodyOfZero();
  }

  // ---------------------------------------------------------------- what is accepted at all

  /** Whole quanta of the alphabet, with one or two '=' in place of the last characters or none. */
  predicate IsBase64(t: string) {
    && |t| % 4 == 0
    && (forall i | 0 <= i < |t| - 2 :: Val(t[i]).Some?)
    && (|t| > 0 ==> Val(t[|t| - 2]).Some? || (t[|t| - 2] == '=' && t[|t| - 1] == '='))
    && (|t| > 0 ==> Val(t[|t| - 1]).Some? || t[|t| - 1] == '=')
  }

  lemma FourCharacters(t: string)
    requires |t| == 4
    ensures Quanta(t).Some? <==> IsBase64(t)
  {
    assert t[4..] == "";
    assert t[2..] == [t[2], t[3]] && t[3..] == [t[3]];
  }

  predicate FirstAreChars(t: string)
    requires |t| >= 4
  {
    Val(t[0]).Some? && Val(t[1]).Some? && Val(t[2]).Some? && Val(t[3]).Some?
  }

  lemma QuantumInFront(t: string)
    requires |t| > 4
    ensures Quanta(t).Some? <==> FirstAreChars(t) && Quanta(t[4..]).Some?
  {
    assert t[2..] != "==" && t[3..] != "=";
  }

  lemma Base64InFront(t: string)
    requires |t| > 4
    ensures IsBase64(t) <==> FirstAreChars(t) && IsBase64(t[4..]) && t[4..] != ""
  {
    var u := t[4..];
    assert |u| % 4 == 0 <==> |t| % 4 == 0;
    if |t| % 4 == 0 {
      assert |u| >= 4 && u[|u| - 2] == t[|t| - 2] && u[|u| - 1] == t[|t| - 1];
      assert forall i | 0 <= i < |u| :: u[i] == t[i + 4];
      assert forall i | 4 <= i < |t| :: t[i] == u[i - 4];
    }
  }

  /** The text that the decoder takes, apart from line breaks. */
  lemma {:induction false} QuantaIff(t: string)
    ensures Quanta(t).Some? <==> IsBase64(t)
  {
    if |t| > 4 {
      QuantaIff(t[4..]);
      QuantumInFront(t);
      Base64InFront(t);
    } else if |t| == 4 {
      FourCharacters(t);
    }
  }

  /** Which URIs are refused, and with which error. */
  lemma PaperErrors(uri: string)
    ensures var r, body := DecodePaperURI(uri), if "lxm://" <= uri then uri[6..] else "";
            && (r == MissingPrefix <==> !("lxm://" <= uri)) && (r == EmptyBody <==> uri == "lxm://")
            && (r == BadBase64 <==> "lxm://" < uri && !IsBase64(WithoutBreaks(Pad(TrimPadding(body)))))
            && (r.Payload? ==> |r.data| <= 2210)
  {
    if "lxm://" <= uri {
      QuantaIff(WithoutBreaks(Pad(TrimPadding(uri[6..]))));
      assert uri == "lxm://" + uri[6..];
    }
  }
}
