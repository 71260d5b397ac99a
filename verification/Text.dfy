/**
 Go strings as the sequence of steps that `range` takes over them, with the two
 normalisations of pkg/rrc/room.go: SanitizeNick and NormalizeRoom.
 */
module Text {

  /** One step of `range` over a Go string: a code point, or a byte that is not part of valid UTF-8. */
  datatype Sym = Rune(cp: nat) | Bad(octet: nat)

  type Str = seq<Sym>

  /** U+FFFD, which Go writes in place of an undecodable byte. */
  const REPLACEMENT := Rune(0xFFFD)

  /** unicode.IsSpace */
  predicate IsSpace(c: Sym) {
    c.Rune? && (9 <= c.cp <= 13 || c.cp == 0x20 || c.cp == 0x85 || c.cp == 0xA0 || c.cp == 0x1680
      || 0x2000 <= c.cp <= 0x200A || c.cp == 0x2028 || c.cp == 0x2029 || c.cp == 0x202F
      || c.cp == 0x205F || c.cp == 0x3000)
  }

  /** White space, code point by code point. */
  lemma SpaceTable(cp: nat)
    ensures IsSpace(Rune(cp)) <==>
              cp in {0x09, 0x0A, 0x0B, 0x0C, 0x0D, 0x20, 0x85, 0xA0, 0x1680, 0x2000, 0x2001, 0x2002, 0x2003, 0x2004,
                     0x2005, 0x2006, 0x2007, 0x2008, 0x2009, 0x200A, 0x2028, 0x2029, 0x202F, 0x205F, 0x3000}
  {}

  /** unicode.IsControl (category Cc), which covers NUL, CR and LF. */
  predicate IsControl(c: Sym) {
    c.Rune? && (c.cp < 0x20 || 0x7F <= c.cp < 0xA0)
  }

  /** The number of UTF-8 bytes one step stands for. */
  function Width(c: Sym): nat {
    if c.Bad? || c.cp < 0x80 then 1 else if c.cp < 0x800 then 2 else if c.cp < 0x10000 then 3 else 4
  }

  /** len(s) in Go. */
  function ByteLen(s: Str): nat {
    if s == [] then 0 else Width(s[0]) + ByteLen(s[1..])
  }

  lemma {:induction false} ByteLenConcat(a: Str, b: Str)
    ensures ByteLen(a + b) == ByteLen(a) + ByteLen(b)
  {
    if a == [] {
      assert a + b == b;
    } else {
      assert (a + b)[1..] == a[1..] + b;
      ByteLenConcat(a[1..], b);
    }
  }

  /** UTF-8, section 3 of RFC 3629; a byte that is not part of it counts as itself. */
  lemma ByteLenOfOne(c: Sym)
    ensures ByteLen([c]) == if c.Bad? then 1 else if c.cp <= 0x7F then 1 else if c.cp <= 0x7FF then 2
                            else if c.cp <= 0xFFFF then 3 else 4
  {
    assert [c][1..] == [];
  }

  // ---------------------------------------------------------------- trimming

  function TrimLeft(s: Str): Str {
    if s != [] && IsSpace(s[0]) then TrimLeft(s[1..]) else s
  }

  function TrimRight(s: Str): Str {
    if s != [] && IsSpace(s[|s| - 1]) then TrimRight(s[..|s| - 1]) else s
  }

  /** strings.TrimSpace */
  function TrimSpace(s: Str): Str {
    TrimRight(TrimLeft(s))
  }

  /** Neither end is white space. */
  predicate Trimmed(s: Str) {
    s == [] || (!IsSpace(s[0]) && !IsSpace(s[|s| - 1]))
  }

  lemma {:induction false} TrimLeftSplits(s: Str) returns (i: nat)
    ensures i <= |s| && TrimLeft(s) == s[i..]
    ensures forall j | 0 <= j < i :: IsSpace(s[j])
    ensures i < |s| ==> !IsSpace(s[i])
  {
    if s != [] && IsSpace(s[0]) {
      var k := TrimLeftSplits(s[1..]);
      i := k + 1;
      assert s[1..][k..] == s[i..];
      assert forall j | 1 <= j < i :: s[j] == s[1..][j - 1];
    } else {
      i := 0;
    }
  }

  lemma {:induction false} TrimRightSplits(s: Str) returns (i: nat)
    ensures i <= |s| && TrimRight(s) == s[..i]
    ensures forall j | i <= j < |s| :: IsSpace(s[j])
    ensures 0 < i ==> !IsSpace(s[i - 1])
  {
    if s != [] && IsSpace(s[|s| - 1]) {
      i := TrimRightSplits(s[..|s| - 1]);
      assert s[..|s| - 1][..i] == s[..i];
    } else {
      i := |s|;
      assert s[..i] == s;
    }
  }

  /** TrimSpace cuts one slice out of the text, and what it cuts off is all white space. */
  lemma TrimSpaceSplits(s: Str) returns (lo: nat, hi: nat)
    ensures lo <= hi <= |s| && TrimSpace(s) == s[lo..hi]
    ensures forall j | 0 <= j < lo || hi <= j < |s| :: IsSpace(s[j])
    ensures Trimmed(TrimSpace(s))
  {
    lo := TrimLeftSplits(s);
    var t := s[lo..];
    var n := TrimRightSplits(t);
    hi := lo + n;
    assert t[..n] == s[lo..hi];
    forall j | hi <= j < |s|
      ensures IsSpace(s[j])
    {
      assert s[j] == t[j - lo];
    }
    if n > 0 {
      assert !IsSpace(t[n - 1]) && t[0] == s[lo];
    }
  }

  lemma TrimmedIsFixed(s: Str)
    requires Trimmed(s)
    ensures TrimSpace(s) == s
  {}

  // ---------------------------------------------------------------- SanitizeNick

  /** What the loop of SanitizeNick writes for one step of the text. */
  function Written(c: Sym): Str {
    if IsControl(c) then [] else if c.Bad? then [REPLACEMENT] else [c]
  }

  function Kept(s: Str): Str {
    if s == [] then [] else Kept(s[..|s| - 1]) + Written(s[|s| - 1])
  }

  /** SanitizeNick as a function of its argument. */
  function Sanitized(s: Str): Str {
    Kept(TrimSpace(s))
  }

  method SanitizeNick(nick: Str) returns (out: Str)
    ensures out == Sanitized(nick)
  {
    var text := TrimSpace(nick);
    if text == [] {
      return [];
    }
    out := [];
    for i := 0 to |text|
      invariant out == Kept(text[..i])
    {
      assert text[..i + 1][..i] == text[..i];
      var r := if text[i].Bad? then REPLACEMENT else text[i];
      if r == Rune(0) || r == Rune(10) || r == Rune(13) {
        continue;
      }
      if IsControl(r) {
        continue;
      }
      out := out + [r];
    }
    assert text[..|text|] == text;
  }

  /** The places of what is kept. */
  function Places(s: Str): seq<nat> {
    if s == [] then []
    else Places(s[..|s| - 1]) + if IsControl(s[|s| - 1]) then [] else [|s| - 1]
  }

  lemma {:induction false} PlacesHold(s: Str, k: nat)
    ensures k in Places(s) <==> k < |s| && !IsControl(s[k])
  {
    if s != [] {
      PlacesHold(s[..|s| - 1], k);
    }
  }

  lemma {:induction false} PlacesRise(s: Str)
    ensures forall i, j | 0 <= i < j < |Places(s)| :: Places(s)[i] < Places(s)[j]
  {
    if s != [] {
      var before := s[..|s| - 1];
      PlacesRise(before);
      forall i | 0 <= i < |Places(before)|
        ensures Places(before)[i] < |s| - 1
      {
        PlacesHold(before, Places(before)[i]);
      }
    }
  }

  lemma {:induction false} KeptAt(s: Str, i: nat)
    requires i < |Places(s)|
    ensures |Kept(s)| == |Places(s)| && Places(s)[i] < |s|
    ensures var c := s[Places(s)[i]]; Kept(s)[i] == if c.Rune? then c else Rune(0xFFFD)
  {
    var n := |s| - 1;
    PlacesHold(s, Places(s)[i]);
    KeptCount(s[..n]);
    if i < |Places(s[..n])| {
      KeptAt(s[..n], i);
    }
  }

  lemma {:induction false} KeptCount(s: Str)
    ensures |Kept(s)| == |Places(s)|
  {
    if s != [] {
      KeptCount(s[..|s| - 1]);
    }
  }

  /**
   Symbol by symbol: of the text between its outer white space SanitizeNick keeps, in order, exactly what is
   no control character, and writes U+FFFD for an undecodable byte.
   */
  lemma SanitizedAt(s: Str) returns (lo: nat, hi: nat, at: seq<nat>)
    ensures lo <= hi <= |s| && Trimmed(s[lo..hi]) && forall k | 0 <= k < lo || hi <= k < |s| :: IsSpace(s[k])
    ensures |at| == |Sanitized(s)| && forall i, j | 0 <= i < j < |at| :: at[i] < at[j]
    ensures forall i | 0 <= i < |at| ::
              at[i] < hi - lo
              && Sanitized(s)[i] == if s[lo..hi][at[i]].Rune? then s[lo..hi][at[i]] else Rune(0xFFFD)
    ensures forall k: nat | k < hi - lo ::
              var c := s[lo..hi][k]; k in at <==> !(c.Rune? && (c.cp < 0x20 || 0x7F <= c.cp < 0xA0))
  {
    lo, hi := TrimSpaceSplits(s);
    var t := s[lo..hi];
    at := Places(t);
    PlacesRise(t);
    KeptCount(t);
    forall i | 0 <= i < |at|
      ensures at[i] < |t| && Kept(t)[i] == if t[at[i]].Rune? then t[at[i]] else Rune(0xFFFD)
    {
      KeptAt(t, i);
    }
    forall k: nat | k < |t|
      ensures k in at <==> !IsControl(t[k])
    {
      PlacesHold(t, k);
    }
  }

  /** Free of control characters and of undecodable bytes. */
  predicate Printable(s: Str) {
    forall i | 0 <= i < |s| :: !IsControl(s[i]) && s[i].Rune?
  }

  /** The form every stored nickname is meant to have. */
  predicate CleanNick(s: Str) {
    Printable(s) && Trimmed(s)
  }

  lemma {:induction false} KeptConcat(a: Str, b: Str)
    ensures Kept(a + b) == Kept(a) + Kept(b)
  {
    if b == [] {
      assert a + b == a;
    } else {
      assert (a + b)[..|a + b| - 1] == a + b[..|b| - 1];
      KeptConcat(a, b[..|b| - 1]);
    }
  }

  lemma {:induction false} KeptPrintable(s: Str)
    ensures Printable(Kept(s))
  {
    if s != [] {
      KeptPrintable(s[..|s| - 1]);
    }
  }

  lemma {:induction false} PrintableIsKept(s: Str)
    requires Printable(s)
    ensures Kept(s) == s
  {
    if s != [] {
      PrintableIsKept(s[..|s| - 1]);
      assert s == s[..|s| - 1] + [s[|s| - 1]];
    }
  }

  /** A nickname that is already clean is left alone. */
  lemma CleanNickIsFixed(s: Str)
    requires CleanNick(s)
    ensures Sanitized(s) == s
  {
    TrimmedIsFixed(s);
    PrintableIsKept(s);
  }

  /** On printable text sanitizing is trimming, so a second pass always lands in the clean form. */
  lemma SanitizeTwiceIsClean(s: Str)
    ensures CleanNick(Sanitized(Sanitized(s)))
    ensures Sanitized(Sanitized(Sanitized(s))) == Sanitized(Sanitized(s))
  {
    var once := Sanitized(s);
    KeptPrintable(TrimSpace(s));
    var lo, hi := TrimSpaceSplits(once);
    var t := TrimSpace(once);
    assert Printable(t) by {
      forall i | 0 <= i < |t|
        ensures !IsControl(t[i]) && t[i].Rune?
      {
        assert t[i] == once[lo + i];
      }
    }
    PrintableIsKept(t);
    CleanNickIsFixed(t);
  }

  lemma TrimKeepsPrintable(s: Str)
    requires Printable(s)
    ensures Printable(TrimSpace(s))
  {
    var lo, hi := TrimSpaceSplits(s);
    var t := TrimSpace(s);
    forall i | 0 <= i < |t|
      ensures !IsControl(t[i]) && t[i].Rune?
    {
      assert t[i] == s[lo + i];
    }
  }

  lemma TrimShrinks(s: Str)
    ensures ByteLen(TrimSpace(s)) <= ByteLen(s)
  {
    var lo, hi := TrimSpaceSplits(s);
    assert s == s[..lo] + (s[lo..hi] + s[hi..]);
    ByteLenConcat(s[..lo], s[lo..hi] + s[hi..]);
    ByteLenConcat(s[lo..hi], s[hi..]);
  }

  /** Sanitizing printable text never makes it longer, so a length check survives the second pass. */
  lemma SanitizePrintableShrinks(s: Str)
    requires Printable(s)
    ensures ByteLen(Sanitized(s)) <= ByteLen(s)
  {
    TrimKeepsPrintable(s);
    PrintableIsKept(TrimSpace(s));
    TrimShrinks(s);
  }

  /** A run of control characters at one end of the trimmed text hides a space that is kept. */
  predicate ShieldsSpace(s: Str) {
    var t := TrimSpace(s);
    || (exists i | 0 <= i < |t| :: KeptSpace(t[i]) && forall j | 0 <= j < i :: IsControl(t[j]))
    || (exists i | 0 <= i < |t| :: KeptSpace(t[i]) && forall j | i < j < |t| :: IsControl(t[j]))
  }

  predicate KeptSpace(c: Sym) {
    IsSpace(c) && !IsControl(c)
  }

  lemma {:induction false} KeptOfControls(s: Str)
    requires forall j | 0 <= j < |s| :: IsControl(s[j])
    ensures Kept(s) == []
  {
    if s != [] {
      KeptOfControls(s[..|s| - 1]);
    }
  }

  lemma KeptSingle(c: Sym)
    ensures Kept([c]) == Written(c)
  {
    assert [c][..0] == [];
  }

  lemma KeptParts(a: Str, c: Sym, b: Str)
    ensures Kept(a + [c] + b) == Kept(a) + Written(c) + Kept(b)
  {
    KeptConcat(a + [c], b);
    KeptConcat(a, [c]);
    KeptSingle(c);
  }

  /** The first kept character, behind nothing but control characters. */
  lemma KeptAfterControls(t: Str, i: nat)
    requires i < |t| && !IsControl(t[i])
    requires forall j | 0 <= j < i :: IsControl(t[j])
    ensures Kept(t) != [] && [Kept(t)[0]] == Written(t[i])
  {
    assert t == t[..i] + [t[i]] + t[i + 1..];
    KeptParts(t[..i], t[i], t[i + 1..]);
    KeptOfControls(t[..i]);
  }

  lemma KeptBeforeControls(t: Str, i: nat)
    requires i < |t| && !IsControl(t[i])
    requires forall j | i < j < |t| :: IsControl(t[j])
    ensures Kept(t) != [] && [Kept(t)[|Kept(t)| - 1]] == Written(t[i])
  {
    assert t == t[..i] + [t[i]] + t[i + 1..];
    KeptParts(t[..i], t[i], t[i + 1..]);
    KeptOfControls(t[i + 1..]);
  }

  lemma KeptAfterControl(t: Str)
    requires t != [] && IsControl(t[0])
    ensures Kept(t) == Kept(t[1..])
  {
    assert t == [t[0]] + t[1..];
    KeptConcat([t[0]], t[1..]);
    KeptSingle(t[0]);
  }

  lemma {:induction false} FirstKept(t: Str) returns (i: nat)
    requires Kept(t) != []
    ensures i < |t| && !IsControl(t[i]) && forall j | 0 <= j < i :: IsControl(t[j])
  {
    if IsControl(t[0]) {
      KeptAfterControl(t);
      var k := FirstKept(t[1..]);
      i := k + 1;
      assert forall j | 1 <= j < i :: t[j] == t[1..][j - 1];
    } else {
      i := 0;
    }
  }

  lemma {:induction false} LastKept(t: Str) returns (i: nat)
    requires Kept(t) != []
    ensures i < |t| && !IsControl(t[i]) && forall j | i < j < |t| :: IsControl(t[j])
  {
    if IsControl(t[|t| - 1]) {
      i := LastKept(t[..|t| - 1]);
    } else {
      i := |t| - 1;
    }
  }

  lemma ShieldedIsNotClean(s: Str)
    requires ShieldsSpace(s)
    ensures !CleanNick(Sanitized(s))
  {
    var t := TrimSpace(s);
    if i :| 0 <= i < |t| && KeptSpace(t[i]) && forall j | 0 <= j < i :: IsControl(t[j]) {
      KeptAfterControls(t, i);
    } else {
      var i :| 0 <= i < |t| && KeptSpace(t[i]) && forall j | i < j < |t| :: IsControl(t[j]);
      KeptBeforeControls(t, i);
    }
  }

  lemma UnshieldedIsClean(s: Str)
    requires !ShieldsSpace(s)
    ensures CleanNick(Sanitized(s))
  {
    var t := TrimSpace(s);
    KeptPrintable(t);
    if Kept(t) != [] {
      var i := FirstKept(t);
      KeptAfterControls(t, i);
      var k := LastKept(t);
      KeptBeforeControls(t, k);
    }
  }

  /** One application of SanitizeNick is idempotent at `s` exactly when no control run shields a space. */
  lemma SanitizeOnceIsCleanIff(s: Str)
    ensures CleanNick(Sanitized(s)) <==> !ShieldsSpace(s)
    ensures Sanitized(Sanitized(s)) == Sanitized(s) <==> !ShieldsSpace(s)
  {
    if ShieldsSpace(s) {
      ShieldedIsNotClean(s);
      SanitizeTwiceIsClean(s);
    } else {
      UnshieldedIsClean(s);
      CleanNickIsFixed(Sanitized(s));
    }
  }

  lemma KeptBehindControl(c: Sym, s: Str)
    requires IsControl(c) && Printable(s)
    ensures Kept([c] + s) == s
  {
    KeptConcat([c], s);
    KeptSingle(c);
    PrintableIsKept(s);
  }

  lemma LedBySpace(c: Sym, s: Str)
    requires IsSpace(c) && s != [] && Trimmed(s)
    ensures TrimSpace([c] + s) == s
  {
    assert ([c] + s)[1..] == s;
    assert TrimLeft([c] + s) == TrimLeft(s) == s;
    TrimmedIsFixed(s);
  }

  lemma PrintableCons(c: Sym, s: Str)
    requires c.Rune? && !IsControl(c) && Printable(s)
    ensures Printable([c] + s)
  {}

  /**
   The idempotence that the repository's own property test asks of one application does not hold: a control
   character in front of a space shields it from the first.
   */
  lemma SanitizeOnceIsNotIdempotent(c: Sym, space: Sym, s: Str)
    requires IsControl(c) && !IsSpace(c) && IsSpace(space) && !IsControl(space) && s != [] && CleanNick(s)
    ensures Sanitized([c] + ([space] + s)) == [space] + s && Sanitized([space] + s) == s
  {
    var once := [space] + s;
    TrimmedIsFixed([c] + once);
    PrintableCons(space, s);
    KeptBehindControl(c, once);
    LedBySpace(space, s);
    PrintableIsKept(s);
  }

  // ---------------------------------------------------------------- NormalizeRoom

  /** The facts about unicode.ToLower that the room key rests on. */
  ghost predicate LowerTable(lower: nat -> nat) {
    forall cp :: lower(lower(cp)) == lower(cp) && (IsSpace(Rune(lower(cp))) <==> IsSpace(Rune(cp)))
  }

  function LowerSym(lower: nat -> nat, c: Sym): Sym {
    if c.Bad? then REPLACEMENT else Rune(lower(c.cp))
  }

  /** strings.ToLower, which also replaces undecodable bytes. */
  function ToLower(lower: nat -> nat, s: Str): Str {
    seq(|s|, i requires 0 <= i < |s| => LowerSym(lower, s[i]))
  }

  function NormalizeRoom(lower: nat -> nat, name: Str): Str {
    ToLower(lower, TrimSpace(name))
  }

  /** A room key is a fixed point of NormalizeRoom, so the client and the hub name a room alike. */
  lemma NormalizeRoomIdempotent(lower: nat -> nat, name: Str)
    requires LowerTable(lower) && lower(0xFFFD) == 0xFFFD
    ensures NormalizeRoom(lower, NormalizeRoom(lower, name)) == NormalizeRoom(lower, name)
  {
    var lo, hi := TrimSpaceSplits(name);
    var t := TrimSpace(name);
    var r := NormalizeRoom(lower, name);
    assert Trimmed(r);
    TrimmedIsFixed(r);
    assert forall i | 0 <= i < |r| :: LowerSym(lower, r[i]) == r[i];
    assert ToLower(lower, r) == r;
  }

  predicate AllSpace(s: Str) {
    forall i | 0 <= i < |s| :: IsSpace(s[i])
  }

  lemma {:induction false} TrimLeftOfSpaced(pre: Str, s: Str)
    requires AllSpace(pre)
    ensures TrimLeft(pre + s) == TrimLeft(s)
  {
    if pre == [] {
      assert pre + s == s;
    } else {
      TrimLeftOfSpaced(pre[1..], s);
      assert (pre + s)[1..] == pre[1..] + s;
    }
  }

  lemma {:induction false} TrimRightOfSpaced(s: Str, post: Str)
    requires AllSpace(post)
    ensures TrimRight(s + post) == TrimRight(s)
  {
    if post == [] {
      assert s + post == s;
    } else {
      var n := |post| - 1;
      TrimRightOfSpaced(s, post[..n]);
      assert (s + post)[..|s + post| - 1] == s + post[..n];
    }
  }

  lemma TrimSpaceOfSpaced(pre: Str, s: Str, post: Str)
    requires AllSpace(pre) && AllSpace(post)
    ensures TrimSpace(pre + s + post) == TrimSpace(s)
  {
    var i := TrimLeftSplits(s);
    if i == |s| {
      TrimLeftOfSpaced(pre + s + post, []);
      assert pre + s + post + [] == pre + s + post;
    } else {
      TrimLeftOfSpaced(pre + s[..i], s[i..] + post);
      assert pre + s[..i] + (s[i..] + post) == pre + s + post;
      assert TrimLeft(s[i..] + post) == s[i..] + post;
      TrimRightOfSpaced(s[i..], post);
    }
  }

  /** The same letters but for their case, with undecodable bytes not told apart. */
  predicate SameLetters(lower: nat -> nat, s: Str, t: Str) {
    |s| == |t| && forall i | 0 <= i < |s| ::
      (if s[i].Rune? then lower(s[i].cp) else 0xFFFD) == (if t[i].Rune? then lower(t[i].cp) else 0xFFFD)
  }

  /** Two names are one room exactly when they differ in outer space and letter case only. */
  lemma OneRoomIff(lower: nat -> nat, pre: Str, a: Str, post: Str, b: Str)
    requires AllSpace(pre) && AllSpace(post) && Trimmed(a)
    ensures NormalizeRoom(lower, pre + a + post) == NormalizeRoom(lower, b) <==> SameLetters(lower, a, TrimSpace(b))
  {
    TrimSpaceOfSpaced(pre, a, post);
    TrimmedIsFixed(a);
    var x, y := ToLower(lower, a), ToLower(lower, TrimSpace(b));
    if SameLetters(lower, a, TrimSpace(b)) {
      assert x == y;
    }
    if x == y {
      forall i | 0 <= i < |a|
        ensures LowerSym(lower, a[i]) == LowerSym(lower, TrimSpace(b)[i])
      {
        assert x[i] == y[i];
      }
    }
  }
}
