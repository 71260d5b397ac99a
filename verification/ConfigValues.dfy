/** The values of a config: booleans, integers, sizes and comma lists, as they are parsed and printed. */
module ConfigValues {
  import opened Basics
  import opened Text
  import opened ConfigText

  const INT64_MIN := -0x8000_0000_0000_0000
  const INT64_MAX := 0x7FFF_FFFF_FFFF_FFFF
  const PLUS := Rune(43)
  const MINUS := Rune(45)

  // ---------------------------------------------------------------- booleans

  /** Lower case where it matters here: no other code point is lowered to a letter of the words below. */
  function Lowered(s: Str): Str {
    seq(|s|, i requires 0 <= i < |s| => if s[i].Rune? && 65 <= s[i].cp <= 90 then Rune(s[i].cp + 32) else s[i])
  }

  function ParseBool(v: Str): bool {
    Lowered(TrimSpace(v)) in {Lit("1"), Lit("yes"), Lit("y"), Lit("true"), Lit("on")}
  }

  function BoolStr(b: bool): Str {
    if b then Lit("yes") else Lit("no")
  }

  lemma BoolRoundTrip(b: bool)
    ensures ParseBool(BoolStr(b)) == b && Clean(BoolStr(b))
  {
    var s := BoolStr(b);
    TrimmedIsFixed(s);
    assert Lowered(s) == s;
    if !b {
      assert s[0] == Rune(110);
      assert Lit("on")[0] == Rune(111);
    }
  }

  /** The word `w`, letter for letter in either case. */
  predicate Spells(t: Str, w: string) {
    |t| == |w| && forall i | 0 <= i < |w| ::
      var n := w[i] as int; t[i] == Rune(n) || ('a' <= w[i] <= 'z' && t[i] == Rune(n - 32))
  }

  lemma SpellsIff(t: Str, w: string)
    requires forall i | 0 <= i < |w| :: 'a' <= w[i] <= 'z' || '0' <= w[i] <= '9'
    ensures Lowered(t) == Lit(w) <==> Spells(t, w)
  {
    if Spells(t, w) {
      assert Lowered(t) == Lit(w);
    }
    if Lowered(t) == Lit(w) {
      forall i | 0 <= i < |w|
        ensures var n := w[i] as int; t[i] == Rune(n) || ('a' <= w[i] <= 'z' && t[i] == Rune(n - 32))
      {
        assert Lowered(t)[i] == Lit(w)[i];
      }
    }
  }

  /** A switch is on exactly for one of five words, in any case and with any space around it. */
  lemma BoolIff(v: Str)
    ensures var t := TrimSpace(v);
            ParseBool(v) <==>
              Spells(t, "1") || Spells(t, "y") || Spells(t, "yes") || Spells(t, "on") || Spells(t, "true")
  {
    var t := TrimSpace(v);
    SpellsIff(t, "1");
    SpellsIff(t, "y");
    SpellsIff(t, "yes");
    SpellsIff(t, "on");
    SpellsIff(t, "true");
  }

  // ---------------------------------------------------------------- integers

  predicate IsDigit(c: Sym) {
    c.Rune? && 48 <= c.cp <= 57
  }

  predicate AllDigits(s: Str) {
    forall i | 0 <= i < |s| :: IsDigit(s[i])
  }

  function Decimal(s: Str): nat
    requires AllDigits(s)
  {
    if s == [] then 0 else 10 * Decimal(s[..|s| - 1]) + (s[|s| - 1].cp - 48)
  }

  /** strconv.Atoi */
  function Atoi(s: Str): Option<int> {
    var signed := s != [] && (s[0] == PLUS || s[0] == MINUS);
    var body := if signed then s[1..] else s;
    if body == [] || !AllDigits(body) then None
    else
      var d: int := Decimal(body);
      var n := if s[0] == MINUS then -d else d;
      if INT64_MIN <= n <= INT64_MAX then Some(n) else None
  }

  function ParseInt(v: Str): (n: int)
    ensures INT64_MIN <= n <= INT64_MAX
  {
    var s := TrimSpace(v);
    if s == [] then 0 else match Atoi(s) case None => 0 case Some(n) => n
  }

  function Digits(n: nat): Str {
    if n < 10 then [Rune(48 + n)] else Digits(n / 10) + [Rune(48 + n % 10)]
  }

  /** strconv.Itoa */
  function Itoa(n: int): Str {
    if n < 0 then [MINUS] + Digits(-n) else Digits(n)
  }

  lemma {:induction false} DigitsAreDecimal(n: nat)
    ensures Digits(n) != [] && AllDigits(Digits(n)) && Decimal(Digits(n)) == n
  {
    if n < 10 {
      var empty: Str := [Rune(48 + n)][..0];
      assert empty == [];
      assert Decimal(empty) == 0;
    } else {
      DigitsAreDecimal(n / 10);
      var s := Digits(n);
      assert s[..|s| - 1] == Digits(n / 10);
    }
  }

  /** A printed number starts with no zero but for zero itself. */
  lemma {:induction false} DigitsAreShort(n: nat)
    ensures |Digits(n)| > 0 && (Digits(n)[0] == Rune(48) <==> n == 0)
  {
    if n >= 10 {
      DigitsAreShort(n / 10);
    }
  }

  lemma NumeralIsClean(s: Str)
    requires forall i | 0 <= i < |s| :: IsDigit(s[i]) || s[i] == MINUS
    ensures Clean(s)
  {}

  lemma ItoaIsNumeral(n: int)
    ensures Itoa(n) != [] && forall i | 0 <= i < |Itoa(n)| :: IsDigit(Itoa(n)[i]) || Itoa(n)[i] == MINUS
  {
    DigitsAreDecimal(if n < 0 then -n else n);
  }

  lemma AtoiUnsigned(body: Str)
    requires body != [] && AllDigits(body)
    ensures Atoi(body) == if Decimal(body) <= INT64_MAX then Some(Decimal(body)) else None
  {
    assert IsDigit(body[0]);
  }

  lemma AtoiSigned(sign: Sym, body: Str)
    requires (sign == PLUS || sign == MINUS) && body != [] && AllDigits(body)
    ensures var n: int := if sign == MINUS then -(Decimal(body) as int) else Decimal(body);
            Atoi([sign] + body) == if INT64_MIN <= n <= INT64_MAX then Some(n) else None
  {
    assert ([sign] + body)[1..] == body;
  }

  lemma AtoiOfItoa(n: int)
    requires INT64_MIN <= n <= INT64_MAX
    ensures Atoi(Itoa(n)) == Some(n)
  {
    if n < 0 {
      DigitsAreDecimal(-n);
      AtoiSigned(MINUS, Digits(-n));
    } else {
      DigitsAreDecimal(n);
      AtoiUnsigned(Digits(n));
    }
  }

  lemma IntRoundTrip(n: int)
    requires INT64_MIN <= n <= INT64_MAX
    ensures ParseInt(Itoa(n)) == n && Clean(Itoa(n))
  {
    ItoaIsNumeral(n);
    NumeralIsClean(Itoa(n));
    TrimmedIsFixed(Itoa(n));
    AtoiOfItoa(n);
  }

  predicate AllZeros(s: Str) {
    forall i | 0 <= i < |s| :: s[i] == Rune(48)
  }

  lemma {:induction false} DecimalAfterZeros(zeros: Str, s: Str)
    requires AllZeros(zeros) && AllDigits(s)
    ensures AllDigits(zeros + s) && Decimal(zeros + s) == Decimal(s)
  {
    if s != [] {
      var n := |s| - 1;
      DecimalAfterZeros(zeros, s[..n]);
      assert (zeros + s)[..|zeros + s| - 1] == zeros + s[..n];
    } else if zeros != [] {
      var n := |zeros| - 1;
      DecimalAfterZeros(zeros[..n], s);
      assert (zeros + s)[..|zeros + s| - 1] == zeros[..n] + s;
    }
  }

  lemma NumeralIsTrimmed(sign: Str, body: Str)
    requires body != [] && AllDigits(body) && sign in {[], [PLUS], [MINUS]}
    ensures Trimmed(sign + body) && sign + body != []
  {
    var t := sign + body;
    assert IsDigit(body[0]) && t[|t| - 1] == body[|body| - 1] && IsDigit(body[|body| - 1]);
    assert t[0] == if sign == [] then body[0] else sign[0];
  }

  /** A number may be signed either way and led by zeros; out of the range of 64 bits it counts as zero. */
  lemma IntOfText(pre: Str, sign: Str, zeros: Str, n: nat, post: Str)
    requires AllSpace(pre) && AllSpace(post) && AllZeros(zeros) && sign in {[], [PLUS], [MINUS]}
    ensures var value: int := if sign == [MINUS] then -(n as int) else n;
            ParseInt(pre + (sign + (zeros + Digits(n))) + post) ==
            if -0x8000_0000_0000_0000 <= value <= 0x7FFF_FFFF_FFFF_FFFF then value else 0
  {
    var body := zeros + Digits(n);
    DigitsAreDecimal(n);
    DecimalAfterZeros(zeros, Digits(n));
    NumeralIsTrimmed(sign, body);
    TrimSpaceOfSpaced(pre, sign + body, post);
    TrimmedIsFixed(sign + body);
    if sign == [] {
      assert sign + body == body;
      AtoiUnsigned(body);
    } else {
      AtoiSigned(sign[0], body);
    }
  }

  /** What is no number counts as zero. */
  lemma NoNumberIsZero(v: Str, i: nat)
    requires i < |TrimSpace(v)| && !IsDigit(TrimSpace(v)[i])
    requires i > 0 || (TrimSpace(v)[0] != PLUS && TrimSpace(v)[0] != MINUS)
    ensures ParseInt(v) == 0
  {
    var s := TrimSpace(v);
    if s[0] == PLUS || s[0] == MINUS {
      assert s[1..][i - 1] == s[i];
    }
  }

  // ---------------------------------------------------------------- sizes

  /** A float64 by its bit pattern, with all NaNs taken as one. */
  type Float = nat

  /** ParseFloat, the printer of config.go, the comparison `<` and the literals that config.go uses. */
  datatype Floats = Floats(parse: Str -> Option<Float>, show: Float -> Str, less: (Float, Float) -> bool,
                           zero: Float, min5: Float, min380: Float,
                           kb256: Float, mb500: Float, kb1000: Float, kb10240: Float)

  /** A size that no limit of the config would raise; zeros of either sign are below both limits. */
  predicate AtLimit(f: Floats, x: Float) {
    !f.less(x, f.min5) || !f.less(x, f.min380)
  }

  /** On such sizes printing and parsing are inverse, and every default is at or above its limit. */
  ghost predicate Lawful(f: Floats) {
    && (forall x: Float | AtLimit(f, x) :: f.parse(f.show(x)) == Some(x) && f.show(x) != [] && Clean(f.show(x)))
    && !f.less(f.min5, f.min5) && !f.less(f.min380, f.min380)
    && !f.less(f.mb500, f.min5) && !f.less(f.kb256, f.min380) && !f.less(f.kb1000, f.min380)
    && !f.less(f.kb10240, f.min380)
  }

  function ParseFloatOrZero(f: Floats, v: Str): Float {
    var s := TrimSpace(v);
    if s == [] then f.zero else match f.parse(s) case None => f.zero case Some(x) => x
  }

  function Limited(f: Floats, x: Float, limit: Float): Float {
    if f.less(x, limit) then limit else x
  }

  lemma FloatRoundTrip(f: Floats, x: Float)
    requires Lawful(f) && AtLimit(f, x)
    ensures ParseFloatOrZero(f, f.show(x)) == x && Clean(f.show(x))
  {
    TrimmedIsFixed(f.show(x));
  }

  // ---------------------------------------------------------------- lists

  /** strings.Split(v, ",") */
  function Split(v: Str): seq<Str> {
    var i := First(v, COMMA);
    if i == |v| then [v] else [v[..i]] + Split(v[i + 1..])
  }

  function Items(parts: seq<Str>): seq<Str> {
    if parts == [] then []
    else
      var p := TrimSpace(parts[|parts| - 1]);
      Items(parts[..|parts| - 1]) + (if p == [] then [] else [p])
  }

  function ListOf(v: Str): seq<Str> {
    var s := TrimSpace(v);
    if s == [] then [] else Items(Split(s))
  }

  /** parseList, with nil and empty lists not told apart. */
  method ParseList(v: Str) returns (out: seq<Str>)
    ensures out == ListOf(v)
  {
    var s := TrimSpace(v);
    if s == [] {
      return [];
    }
    var parts := Split(s);
    out := [];
    for i := 0 to |parts|
      invariant out == Items(parts[..i])
    {
      assert parts[..i + 1][..i] == parts[..i];
      var p := TrimSpace(parts[i]);
      if p != [] {
        out := out + [p];
      }
    }
    assert parts[..|parts|] == parts;
  }

  /** strings.Join(items, ", ") */
  function Join(items: seq<Str>): Str {
    if items == [] then [] else if |items| == 1 then items[0] else items[0] + [COMMA, SPACE] + Join(items[1..])
  }

  lemma {:induction false} JoinSnoc(items: seq<Str>, e: Str)
    ensures Join(items + [e]) == if items == [] then e else Join(items) + Lit(", ") + e
  {
    if items == [] {
      assert items + [e] == [e];
    } else {
      JoinSnoc(items[1..], e);
      assert (items + [e])[1..] == items[1..] + [e];
      assert Lit(", ") == [COMMA, SPACE];
    }
  }

  /** An entry that a comma list can hold. */
  predicate IsItem(e: Str) {
    e != [] && Clean(e) && COMMA !in e
  }

  predicate AllItems(items: seq<Str>) {
    forall i | 0 <= i < |items| :: IsItem(items[i])
  }

  lemma SplitHead(a: Str, rest: Str)
    requires COMMA !in a
    ensures Split(a + [COMMA] + rest) == [a] + Split(rest)
  {
    var t := a + [COMMA] + rest;
    assert t[..|a|] == a && t[|a| + 1..] == rest;
    FirstIs(t, COMMA, |a|);
  }

  lemma {:induction false} ItemsConcat(a: seq<Str>, b: seq<Str>)
    ensures Items(a + b) == Items(a) + Items(b)
  {
    if b == [] {
      assert a + b == a;
    } else {
      assert (a + b)[..|a + b| - 1] == a + b[..|b| - 1];
      ItemsConcat(a, b[..|b| - 1]);
    }
  }

  lemma ItemsOfOne(p: Str)
    requires TrimSpace(p) != []
    ensures Items([p]) == [TrimSpace(p)]
  {
    assert [p][..0] == [];
    assert Items([p][..0]) == [];
  }

  lemma TrimLed(pre: Str, e: Str)
    requires (pre == [] || pre == [SPACE]) && Trimmed(e)
    ensures TrimSpace(pre + e) == e
  {
    if pre == [] {
      assert pre + e == e;
      TrimmedIsFixed(e);
    } else {
      TrimOneLeft(e);
    }
  }

  lemma JoinLed(pre: Str, items: seq<Str>)
    requires |items| > 1
    ensures pre + Join(items) == pre + items[0] + [COMMA] + ([SPACE] + Join(items[1..]))
  {}

  lemma OneJoined(pre: Str, e: Str)
    requires (pre == [] || pre == [SPACE]) && IsItem(e)
    ensures Items(Split(pre + e)) == [e]
  {
    TrimLed(pre, e);
    ItemsOfOne(pre + e);
    FirstIs(pre + e, COMMA, |pre + e|);
    assert Split(pre + e) == [pre + e];
  }

  lemma FirstJoined(pre: Str, e: Str, rest: Str)
    requires (pre == [] || pre == [SPACE]) && IsItem(e)
    ensures Items(Split(pre + e + [COMMA] + rest)) == [e] + Items(Split(rest))
  {
    TrimLed(pre, e);
    ItemsOfOne(pre + e);
    SplitHead(pre + e, rest);
    ItemsConcat([pre + e], Split(rest));
  }

  /** A blank in front, or none, does not change what a joined list splits into. */
  lemma {:induction false} SplitOfJoined(pre: Str, items: seq<Str>)
    requires (pre == [] || pre == [SPACE]) && items != [] && AllItems(items)
    ensures Items(Split(pre + Join(items))) == items
    decreases |items|
  {
    if |items| == 1 {
      OneJoined(pre, items[0]);
      assert items == [items[0]];
    } else {
      JoinLed(pre, items);
      FirstJoined(pre, items[0], [SPACE] + Join(items[1..]));
      SplitOfJoined([SPACE], items[1..]);
      assert items == [items[0]] + items[1..];
    }
  }

  lemma {:induction false} JoinIsClean(items: seq<Str>)
    requires AllItems(items)
    ensures Clean(Join(items)) && (items != [] ==> Join(items) != [] && Join(items)[0] == items[0][0])
    decreases |items|
  {
    if |items| > 1 {
      JoinIsClean(items[1..]);
      var t := Join(items);
      var u := Join(items[1..]);
      assert u != [];
      assert t[|t| - 1] == u[|u| - 1] && t[0] == items[0][0];
    }
  }

  lemma ListRoundTrip(items: seq<Str>)
    requires AllItems(items)
    ensures ListOf(Join(items)) == items && Clean(Join(items))
  {
    JoinIsClean(items);
    TrimmedIsFixed(Join(items));
    if items != [] {
      SplitOfJoined([], items);
      assert [] + Join(items) == Join(items);
    }
  }

  lemma {:induction false} SplitParts(v: Str)
    requires HASH !in v && NEWLINE !in v
    ensures forall i | 0 <= i < |Split(v)| :: HASH !in Split(v)[i] && NEWLINE !in Split(v)[i] && COMMA !in Split(v)[i]
  {
    var i := First(v, COMMA);
    if i == |v| {
      assert v[..i] == v;
    } else {
      SplitParts(v[i + 1..]);
    }
  }

  lemma {:induction false} ItemsAreItems(parts: seq<Str>)
    requires forall i | 0 <= i < |parts| :: HASH !in parts[i] && NEWLINE !in parts[i] && COMMA !in parts[i]
    ensures AllItems(Items(parts))
  {
    if parts != [] {
      var p := parts[|parts| - 1];
      ItemsAreItems(parts[..|parts| - 1]);
      TrimIsWithin(p, HASH);
      TrimIsWithin(p, NEWLINE);
      TrimIsWithin(p, COMMA);
      var lo, hi := TrimSpaceSplits(p);
    }
  }

  /** Every parsed list can be printed. */
  lemma ParsedItems(v: Str)
    requires Clean(v)
    ensures AllItems(ListOf(v))
  {
    TrimmedIsFixed(v);
    SplitParts(v);
    ItemsAreItems(Split(v));
  }

  // ---------------------------------------------------------------- any list

  lemma {:induction false} SplitConcat(a: Str, b: Str)
    ensures Split(a + [COMMA] + b) == Split(a) + Split(b)
    decreases |a|
  {
    var i := First(a, COMMA);
    if i == |a| {
      assert a[..i] == a;
      SplitHead(a, b);
    } else {
      var head, rest := a[..i], a[i + 1..];
      assert a == head + [COMMA] + rest;
      assert a + [COMMA] + b == head + [COMMA] + (rest + [COMMA] + b);
      SplitHead(head, rest + [COMMA] + b);
      SplitConcat(rest, b);
    }
  }

  lemma ItemsOf(p: Str)
    ensures Items([p]) == if TrimSpace(p) == [] then [] else [TrimSpace(p)]
  {
    assert [p][..0] == [];
    assert Items([p][..0]) == [];
  }

  lemma SplitPlain(s: Str)
    requires COMMA !in s
    ensures Split(s) == [s]
  {
    FirstIs(s, COMMA, |s|);
  }

  lemma ItemsAtComma(head: Str, rest: Str)
    requires COMMA !in head
    ensures Items(Split(head + [COMMA] + rest)) == Items([head]) + Items(Split(rest))
  {
    SplitHead(head, rest);
    ItemsConcat([head], Split(rest));
  }

  /** A text up to its first comma and behind it. */
  lemma CutAtComma(s: Str) returns (head: Str, rest: Str)
    requires COMMA in s
    ensures COMMA !in head && s == head + [COMMA] + rest && |rest| < |s|
  {
    var i := First(s, COMMA);
    assert i < |s| by {
      assert s[..|s|] == s;
    }
    head, rest := s[..i], s[i + 1..];
  }

  lemma OneItem(s: Str, t: Str)
    requires COMMA !in s && COMMA !in t && TrimSpace(s) == TrimSpace(t)
    ensures Items(Split(s)) == Items(Split(t)) && Items([s]) == Items([t])
  {
    SplitPlain(s);
    SplitPlain(t);
    ItemsOf(s);
    ItemsOf(t);
  }

  lemma SpaceHasNoComma(s: Str)
    requires AllSpace(s)
    ensures COMMA !in s
  {}

  lemma LedParts(pre: Str, head: Str, rest: Str)
    ensures pre + (head + [COMMA] + rest) == pre + head + [COMMA] + rest
  {}

  lemma TrailedParts(head: Str, rest: Str, post: Str)
    ensures head + [COMMA] + rest + post == head + [COMMA] + (rest + post)
  {}

  lemma ThreeSlices(v: Str, lo: nat, hi: nat)
    requires lo <= hi <= |v|
    ensures v[..lo] + v[lo..] == v && v[lo..hi] + v[hi..] == v[lo..]
  {}

  lemma ItemsOfLed(pre: Str, s: Str)
    requires AllSpace(pre)
    ensures Items(Split(pre + s)) == Items(Split(s))
  {
    SpaceHasNoComma(pre);
    if COMMA in s {
      var head, rest := CutAtComma(s);
      SpacedEnds(pre, head, []);
      OneItem(pre + head, head);
      ItemsAtComma(head, rest);
      ItemsAtComma(pre + head, rest);
      LedParts(pre, head, rest);
    } else {
      SpacedEnds(pre, s, []);
      OneItem(pre + s, s);
    }
  }

  lemma {:induction false} ItemsOfTrailed(s: Str, post: Str)
    requires AllSpace(post)
    ensures Items(Split(s + post)) == Items(Split(s))
    decreases |s|
  {
    SpaceHasNoComma(post);
    if COMMA in s {
      var head, rest := CutAtComma(s);
      ItemsOfTrailed(rest, post);
      ItemsAtComma(head, rest);
      ItemsAtComma(head, rest + post);
      TrailedParts(head, rest, post);
    } else {
      SpacedEnds([], s, post);
      OneItem(s + post, s);
    }
  }

  lemma SpacedEnds(pre: Str, s: Str, post: Str)
    requires AllSpace(pre) && AllSpace(post)
    ensures post == [] ==> TrimSpace(pre + s) == TrimSpace(s)
    ensures pre == [] ==> TrimSpace(s + post) == TrimSpace(s)
  {
    TrimSpaceOfSpaced(pre, s, post);
    if post == [] {
      assert pre + s + post == pre + s;
    }
    if pre == [] {
      assert pre + s + post == s + post;
    }
  }

  lemma ListIsItems(v: Str)
    ensures ListOf(v) == Items(Split(v))
  {
    var lo, hi := TrimSpaceSplits(v);
    var s := v[lo..hi];
    ItemsOfLed(v[..lo], v[lo..]);
    ItemsOfTrailed(s, v[hi..]);
    ThreeSlices(v, lo, hi);
    if s == [] {
      SplitPlain(s);
      ItemsOf(s);
    }
  }

  /** A list of whatever text: a comma separates, space around an entry goes, and empty entries are left out. */
  lemma ListAtComma(a: Str, b: Str)
    ensures ListOf(a + [COMMA] + b) == ListOf(a) + ListOf(b)
    ensures COMMA !in a ==> ListOf(a) == if TrimSpace(a) == [] then [] else [TrimSpace(a)]
  {
    ListIsItems(a);
    ListIsItems(b);
    ListIsItems(a + [COMMA] + b);
    SplitConcat(a, b);
    ItemsConcat(Split(a), Split(b));
    if COMMA !in a {
      SplitPlain(a);
      ItemsOf(a);
    }
  }
}
