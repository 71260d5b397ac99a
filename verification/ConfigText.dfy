/** The sectioned key = value text of pkg/lxmf/config.go: reading it and printing it. */
module ConfigText {
  import opened Basics
  import opened Text

  const NEWLINE := Rune(10)
  const RETURN := Rune(13)
  const SPACE := Rune(32)
  const HASH := Rune(35)
  const COMMA := Rune(44)
  const EQUALS := Rune(61)
  const OPEN := Rune(91)
  const CLOSE := Rune(93)

  /** A string literal as text. */
  function Lit(s: string): (t: Str)
    ensures |t| == |s| && forall i | 0 <= i < |s| :: t[i] == Rune(s[i] as int)
  {
    seq(|s|, i requires 0 <= i < |s| => Rune(s[i] as int))
  }

  /** The first index of `c`, or the length. */
  function First(t: Str, c: Sym): (i: nat)
    ensures i <= |t| && (i < |t| ==> t[i] == c) && c !in t[..i]
  {
    if t == [] || t[0] == c then 0
    else
      var i := First(t[1..], c);
      assert t[..i + 1] == [t[0]] + t[1..][..i];
      i + 1
  }

  lemma {:induction false} FirstIs(t: Str, c: Sym, i: nat)
    requires i <= |t| && c !in t[..i] && (i < |t| ==> t[i] == c)
    ensures First(t, c) == i
  {
    if i > 0 {
      assert t[0] == t[..i][0];
      assert t[1..][..i - 1] == t[..i][1..];
      FirstIs(t[1..], c, i - 1);
    }
  }

  // ---------------------------------------------------------------- lines

  /** bufio.ScanLines drops one carriage return at the end of a line. */
  function DropReturn(line: Str): Str {
    if line != [] && line[|line| - 1] == RETURN then line[..|line| - 1] else line
  }

  /** bufio.ScanLines; text behind the last newline is a line if there is any. */
  function Lines(t: Str): seq<Str> {
    if t == [] then []
    else
      var i := First(t, NEWLINE);
      if i == |t| then [DropReturn(t)] else [DropReturn(t[..i])] + Lines(t[i + 1..])
  }

  datatype Line = Blank | Header(name: Str) | Pair(key: Str, val: Str) | Malformed

  function Uncommented(line: Str): Str {
    TrimSpace(line[..First(line, HASH)])
  }

  function Classify(line: Str): Line {
    var s := Uncommented(line);
    if s == [] then Blank
    else if s[0] == OPEN && s[|s| - 1] == CLOSE then Header(TrimSpace(s[1..|s| - 1]))
    else
      var i := First(s, EQUALS);
      if i == |s| then Malformed else Pair(TrimSpace(s[..i]), TrimSpace(s[i + 1..]))
  }

  // ---------------------------------------------------------------- sections

  type Section = map<Str, Str>
  type Sections = map<Str, Section>

  datatype Reader = Reader(current: Str, out: Sections)

  const START := Reader([], map[])

  function SectionOf(out: Sections, name: Str): Section {
    if name in out then out[name] else map[]
  }

  /** One turn of the scanner loop; None is an error. */
  function ReadLine(r: Reader, line: Str): Option<Reader> {
    match Classify(line)
    case Blank => Some(r)
    case Malformed => None
    case Header(name) => if name == [] then None else Some(Reader(name, r.out[name := SectionOf(r.out, name)]))
    case Pair(k, v) =>
      if r.current == [] || k == [] then None
      else Some(r.(out := r.out[r.current := SectionOf(r.out, r.current)[k := v]]))
  }

  function ReadLines(r: Reader, lines: seq<Str>): Option<Reader>
    decreases |lines|
  {
    if lines == [] then Some(r)
    else match ReadLine(r, lines[0]) case None => None case Some(next) => ReadLines(next, lines[1..])
  }

  function ReadText(r: Reader, t: Str): Option<Reader> {
    ReadLines(r, Lines(t))
  }

  /** readSectionedKV */
  method ReadSectionedKV(text: Str) returns (r: Option<Sections>)
    ensures r == match ReadText(START, text) case None => None case Some(end) => Some(end.out)
  {
    var lines := Lines(text);
    var out: Sections, current: Str := map[], [];
    for n := 0 to |lines|
      invariant ReadText(START, text) == ReadLines(Reader(current, out), lines[n..])
      invariant current != [] ==> current in out
    {
      assert lines[n..][0] == lines[n] && lines[n..][1..] == lines[n + 1..];
      var ok;
      ok, current, out := ReadOne(lines[n], current, out);
      if !ok {
        return None;
      }
    }
    return Some(out);
  }

  /** The body of the scanner loop. */
  method ReadOne(raw: Str, current: Str, out: Sections) returns (ok: bool, current': Str, out': Sections)
    requires current != [] ==> current in out
    ensures match ReadLine(Reader(current, out), raw)
            case None => !ok
            case Some(next) => ok && next == Reader(current', out') && (current' != [] ==> current' in out')
  {
    current', out' := current, out;
    var line := TrimSpace(raw[..First(raw, HASH)]);
    if line == [] {
      return true, current', out';
    }
    if line[0] == OPEN && line[|line| - 1] == CLOSE {
      current' := TrimSpace(line[1..|line| - 1]);
      if current' == [] {
        return false, current', out';
      }
      if current' !in out {
        out' := out[current' := map[]];
      } else {
        assert out == out[current' := out[current']];
      }
      return true, current', out';
    }
    var i := First(line, EQUALS);
    if i == |line| || current == [] {
      return false, current', out';
    }
    var k, v := TrimSpace(line[..i]), TrimSpace(line[i + 1..]);
    if k == [] {
      return false, current', out';
    }
    return true, current', out[current := out[current][k := v]];
  }

  // ---------------------------------------------------------------- printing

  datatype KV = KV(k: Str, v: Str)

  function PairLine(p: KV): Str {
    p.k + [SPACE, EQUALS, SPACE] + p.v
  }

  function PairLines(kv: seq<KV>): Str {
    if kv == [] then [] else PairLine(kv[0]) + [NEWLINE] + PairLines(kv[1..])
  }

  function Emitted(name: Str, kv: seq<KV>): Str {
    [OPEN] + name + [CLOSE, NEWLINE, NEWLINE] + PairLines(kv) + [NEWLINE]
  }

  lemma {:induction false} PairLinesSnoc(kv: seq<KV>, p: KV)
    ensures PairLines(kv + [p]) == PairLines(kv) + PairLine(p) + [NEWLINE]
  {
    if kv == [] {
      assert [] + [p] == [p] && [p][1..] == [];
    } else {
      PairLinesSnoc(kv[1..], p);
      assert (kv + [p])[1..] == kv[1..] + [p];
    }
  }

  /** emitSection */
  method EmitSection(buf: Str, name: Str, kv: seq<KV>) returns (out: Str)
    ensures out == buf + Emitted(name, kv)
  {
    out := buf + [OPEN] + name + [CLOSE, NEWLINE, NEWLINE];
    for i := 0 to |kv|
      invariant out == buf + ([OPEN] + name + [CLOSE, NEWLINE, NEWLINE] + PairLines(kv[..i]))
    {
      assert kv[..i + 1] == kv[..i] + [kv[i]];
      PairLinesSnoc(kv[..i], kv[i]);
      out := out + kv[i].k + [SPACE, EQUALS, SPACE] + kv[i].v + [NEWLINE];
    }
    assert kv[..|kv|] == kv;
    out := out + [NEWLINE];
  }

  // ---------------------------------------------------------------- reading what was printed

  /** A value that a line can hold: nothing to trim, no comment sign, no line break. */
  predicate Clean(v: Str) {
    Trimmed(v) && HASH !in v && NEWLINE !in v
  }

  predicate GoodKey(k: Str) {
    k != [] && Clean(k) && EQUALS !in k && k[0] != OPEN
  }

  predicate GoodPairs(kv: seq<KV>) {
    forall i | 0 <= i < |kv| :: GoodKey(kv[i].k) && Clean(kv[i].v)
  }

  lemma LinesCons(line: Str, rest: Str)
    requires NEWLINE !in line
    ensures Lines(line + [NEWLINE] + rest) == [DropReturn(line)] + Lines(rest)
  {
    var t := line + [NEWLINE] + rest;
    assert t[..|line|] == line && t[|line| + 1..] == rest;
    FirstIs(t, NEWLINE, |line|);
  }

  lemma ReadTextCons(r: Reader, line: Str, rest: Str)
    requires NEWLINE !in line && DropReturn(line) == line
    ensures ReadText(r, line + [NEWLINE] + rest) ==
            match ReadLine(r, line) case None => None case Some(next) => ReadText(next, rest)
  {
    LinesCons(line, rest);
    assert ([line] + Lines(rest))[1..] == Lines(rest);
  }

  lemma NoCommentUncommented(line: Str)
    requires HASH !in line
    ensures Uncommented(line) == TrimSpace(line)
  {
    FirstIs(line, HASH, |line|);
    assert line[..|line|] == line;
  }

  /** What follows the equals sign of a trimmed pair. */
  function Behind(v: Str): Str {
    if v == [] then [] else [SPACE] + v
  }

  lemma TrimOfPair(p: KV)
    requires GoodKey(p.k) && Clean(p.v)
    ensures TrimSpace(PairLine(p)) == p.k + [SPACE, EQUALS] + Behind(p.v)
  {
    var t := PairLine(p);
    if p.v == [] {
      var u := p.k + [SPACE, EQUALS];
      assert t[0] == p.k[0] && TrimLeft(t) == t;
      assert t[|t| - 1] == SPACE && t[..|t| - 1] == u && u[|u| - 1] == EQUALS;
      assert TrimRight(u) == u;
      assert u + [] == u;
    } else {
      assert t[0] == p.k[0] && t[|t| - 1] == p.v[|p.v| - 1];
      TrimmedIsFixed(t);
    }
  }

  lemma TrimOneLeft(v: Str)
    requires Trimmed(v)
    ensures TrimSpace([SPACE] + v) == v
  {
    assert ([SPACE] + v)[1..] == v;
    assert TrimLeft([SPACE] + v) == TrimLeft(v) == v;
    TrimmedIsFixed(v);
  }

  lemma TrimOneRight(k: Str)
    requires k != [] && Trimmed(k)
    ensures TrimSpace(k + [SPACE]) == k
  {
    var t := k + [SPACE];
    assert t[0] == k[0] && TrimLeft(t) == t;
    assert t[..|t| - 1] == k;
    assert TrimRight(t) == TrimRight(k) == k;
  }

  /** Cutting at the first equals sign. */
  lemma CutPair(k: Str, tail: Str)
    requires EQUALS !in k
    ensures var s := k + [SPACE, EQUALS] + tail;
            First(s, EQUALS) == |k| + 1 && s[..|k| + 1] == k + [SPACE] && s[|k| + 2..] == tail
  {
    var s := k + [SPACE, EQUALS] + tail;
    assert s[..|k| + 1] == k + [SPACE];
    FirstIs(s, EQUALS, |k| + 1);
  }

  /** A printed pair is read as that pair. */
  lemma ClassifyPair(p: KV)
    requires GoodKey(p.k) && Clean(p.v)
    ensures Classify(PairLine(p)) == Pair(p.k, p.v)
  {
    assert HASH !in PairLine(p);
    NoCommentUncommented(PairLine(p));
    TrimOfPair(p);
    CutPair(p.k, Behind(p.v));
    TrimOneRight(p.k);
    if p.v != [] {
      TrimOneLeft(p.v);
    }
    assert (p.k + [SPACE, EQUALS] + Behind(p.v))[0] == p.k[0];
  }

  /** What stands behind the first comment sign makes no difference. */
  lemma CommentIsDropped(line: Str, comment: Str)
    requires HASH !in line
    ensures Classify(line + [HASH] + comment) == Classify(line)
  {
    var t := line + [HASH] + comment;
    assert t[..|line|] == line;
    FirstIs(t, HASH, |line|);
    NoCommentUncommented(line);
  }

  lemma CutSpaced(k: Str, b: Str, c: Str, v: Str)
    requires AllSpace(b) && AllSpace(c) && EQUALS !in k && Trimmed(k) && Trimmed(v)
    ensures var s := k + b + [EQUALS] + (c + v);
            var i := First(s, EQUALS);
            i == |k + b| && TrimSpace(s[..i]) == k && TrimSpace(s[i + 1..]) == v
  {
    var s, i := k + b + [EQUALS] + (c + v), |k + b|;
    assert s[..i] == k + b && s[i + 1..] == c + v;
    assert EQUALS !in b;
    FirstIs(s, EQUALS, i);
    TrimSpaceOfSpaced([], k, b);
    TrimSpaceOfSpaced(c, v, []);
    assert [] + k + b == k + b && c + v + [] == c + v;
    TrimmedIsFixed(k);
    TrimmedIsFixed(v);
  }

  /** A pair may have any space, or none, around its key and its value. */
  lemma PairInAnySpacing(a: Str, k: Str, b: Str, c: Str, v: Str, d: Str)
    requires AllSpace(a) && AllSpace(b) && AllSpace(c) && AllSpace(d)
    requires GoodKey(k) && Clean(v) && v != []
    ensures Classify(a + (k + b + [EQUALS] + (c + v)) + d) == Pair(k, v)
  {
    var s := k + b + [EQUALS] + (c + v);
    assert HASH !in a + s + d;
    NoCommentUncommented(a + s + d);
    TrimSpaceOfSpaced(a, s, d);
    assert s[0] == k[0] && s[|s| - 1] == v[|v| - 1];
    TrimmedIsFixed(s);
    CutSpaced(k, b, c, v);
  }

  lemma PairLineIsALine(p: KV)
    requires GoodKey(p.k) && Clean(p.v)
    ensures NEWLINE !in PairLine(p) && DropReturn(PairLine(p)) == PairLine(p)
  {
    var t := PairLine(p);
    if p.v == [] {
      assert t[|t| - 1] == SPACE;
    } else {
      assert t[|t| - 1] == p.v[|p.v| - 1];
      assert IsSpace(RETURN);
    }
  }

  /** The pairs entered one after the other. */
  function Entered(m: Section, kv: seq<KV>): Section
    decreases |kv|
  {
    if kv == [] then m else Entered(m[kv[0].k := kv[0].v], kv[1..])
  }

  lemma Overwritten(out: Sections, name: Str, m: Section, n: Section)
    ensures out[name := m][name := n] == out[name := n]
  {}

  lemma ReadPair(name: Str, out: Sections, m: Section, p: KV, rest: Str)
    requires name != [] && GoodKey(p.k) && Clean(p.v)
    ensures ReadText(Reader(name, out[name := m]), PairLine(p) + [NEWLINE] + rest) ==
            ReadText(Reader(name, out[name := m[p.k := p.v]]), rest)
  {
    var r := Reader(name, out[name := m]);
    ClassifyPair(p);
    PairLineIsALine(p);
    ReadTextCons(r, PairLine(p), rest);
    Overwritten(out, name, m, m[p.k := p.v]);
  }

  lemma {:induction false} ReadPairs(name: Str, out: Sections, m: Section, kv: seq<KV>, rest: Str)
    requires name != [] && GoodPairs(kv)
    ensures ReadText(Reader(name, out[name := m]), PairLines(kv) + rest) ==
            ReadText(Reader(name, out[name := Entered(m, kv)]), rest)
    decreases |kv|
  {
    if kv == [] {
      assert PairLines(kv) + rest == rest;
    } else {
      var p := kv[0];
      var tail := PairLines(kv[1..]) + rest;
      assert PairLines(kv) + rest == PairLine(p) + [NEWLINE] + tail by {
        FourParts(PairLine(p), PairLines(kv[1..]), rest);
      }
      ReadPair(name, out, m, p, tail);
      ReadPairs(name, out, m[p.k := p.v], kv[1..], rest);
    }
  }

  lemma FourParts(a: Str, b: Str, c: Str)
    ensures a + [NEWLINE] + b + c == a + [NEWLINE] + (b + c)
  {}

  predicate GoodName(name: Str) {
    name != [] && Clean(name)
  }

  lemma ClassifyHeader(name: Str)
    requires GoodName(name)
    ensures Classify([OPEN] + name + [CLOSE]) == Header(name)
    ensures NEWLINE !in [OPEN] + name + [CLOSE] && DropReturn([OPEN] + name + [CLOSE]) == [OPEN] + name + [CLOSE]
  {
    var t := [OPEN] + name + [CLOSE];
    NoCommentUncommented(t);
    TrimmedIsFixed(t);
    assert t[1..|t| - 1] == name;
    TrimmedIsFixed(name);
  }

  lemma ReadBlank(r: Reader, rest: Str)
    ensures ReadText(r, [NEWLINE] + rest) == ReadText(r, rest)
  {
    NoCommentUncommented([]);
    assert Classify([]) == Blank;
    ReadTextCons(r, [], rest);
    assert [] + [NEWLINE] + rest == [NEWLINE] + rest;
  }

  lemma ReadHeader(r: Reader, name: Str, rest: Str)
    requires GoodName(name)
    ensures ReadText(r, [OPEN] + name + [CLOSE] + [NEWLINE] + ([NEWLINE] + rest)) ==
            ReadText(Reader(name, r.out[name := SectionOf(r.out, name)]), rest)
  {
    ClassifyHeader(name);
    ReadTextCons(r, [OPEN] + name + [CLOSE], [NEWLINE] + rest);
    ReadBlank(Reader(name, r.out[name := SectionOf(r.out, name)]), rest);
  }

  lemma Regrouped(name: Str, p: Str, rest: Str)
    ensures [OPEN] + name + [CLOSE, NEWLINE, NEWLINE] + p + [NEWLINE] + rest ==
            [OPEN] + name + [CLOSE] + [NEWLINE] + ([NEWLINE] + (p + ([NEWLINE] + rest)))
  {}

  lemma ReadBody(name: Str, out: Sections, m: Section, kv: seq<KV>, rest: Str)
    requires name != [] && GoodPairs(kv)
    ensures ReadText(Reader(name, out[name := m]), PairLines(kv) + ([NEWLINE] + rest)) ==
            ReadText(Reader(name, out[name := Entered(m, kv)]), rest)
  {
    ReadPairs(name, out, m, kv, [NEWLINE] + rest);
    ReadBlank(Reader(name, out[name := Entered(m, kv)]), rest);
  }

  /** A printed section is read as that section, and adds to what was read under its name before. */
  lemma ReadSection(r: Reader, name: Str, kv: seq<KV>, rest: Str)
    requires GoodName(name) && GoodPairs(kv)
    ensures ReadText(r, Emitted(name, kv) + rest) ==
            ReadText(Reader(name, r.out[name := Entered(SectionOf(r.out, name), kv)]), rest)
  {
    Regrouped(name, PairLines(kv), rest);
    ReadHeader(r, name, PairLines(kv) + ([NEWLINE] + rest));
    ReadBody(name, r.out, SectionOf(r.out, name), kv, rest);
  }

  /** With distinct keys every pair is found again. */
  lemma {:induction false} EnteredAt(m: Section, kv: seq<KV>, i: nat)
    requires i < |kv| && forall j | i < j < |kv| :: kv[j].k != kv[i].k
    ensures kv[i].k in Entered(m, kv) && Entered(m, kv)[kv[i].k] == kv[i].v
    decreases |kv|
  {
    if i > 0 {
      EnteredAt(m[kv[0].k := kv[0].v], kv[1..], i - 1);
    } else {
      EnteredKeeps(m[kv[0].k := kv[0].v], kv[1..], kv[0].k);
    }
  }

  lemma {:induction false} EnteredKeeps(m: Section, kv: seq<KV>, k: Str)
    requires k in m && forall j | 0 <= j < |kv| :: kv[j].k != k
    ensures k in Entered(m, kv) && Entered(m, kv)[k] == m[k]
    decreases |kv|
  {
    if kv != [] {
      EnteredKeeps(m[kv[0].k := kv[0].v], kv[1..], k);
    }
  }

  // ---------------------------------------------------------------- what can be read at all

  ghost predicate CleanSections(out: Sections) {
    forall name, k | name in out && k in out[name] :: Clean(out[name][k])
  }

  lemma {:induction false} LinesHaveNoBreaks(t: Str)
    ensures forall i | 0 <= i < |Lines(t)| :: NEWLINE !in Lines(t)[i]
  {
    if t != [] {
      var i := First(t, NEWLINE);
      if i < |t| {
        LinesHaveNoBreaks(t[i + 1..]);
      } else {
        assert t[..i] == t;
      }
    }
  }

  lemma TrimIsWithin(t: Str, c: Sym)
    requires c !in t
    ensures c !in TrimSpace(t)
  {
    var lo, hi := TrimSpaceSplits(t);
  }

  lemma ReadValueIsClean(line: Str)
    requires NEWLINE !in line
    ensures Classify(line).Pair? ==> Clean(Classify(line).val)
  {
    var s := Uncommented(line);
    TrimIsWithin(line[..First(line, HASH)], HASH);
    TrimIsWithin(line[..First(line, HASH)], NEWLINE);
    var i := First(s, EQUALS);
    if i < |s| {
      TrimIsWithin(s[i + 1..], HASH);
      TrimIsWithin(s[i + 1..], NEWLINE);
      var lo, hi := TrimSpaceSplits(s[i + 1..]);
    }
  }

  lemma {:induction false} ReadIsClean(r: Reader, lines: seq<Str>)
    requires CleanSections(r.out) && forall i | 0 <= i < |lines| :: NEWLINE !in lines[i]
    ensures ReadLines(r, lines).Some? ==> CleanSections(ReadLines(r, lines).value.out)
    decreases |lines|
  {
    if lines != [] {
      ReadValueIsClean(lines[0]);
      var next := ReadLine(r, lines[0]);
      if next.Some? {
        ReadIsClean(next.value, lines[1..]);
      }
    }
  }

  /** Every value that reading yields is one that printing can hold. */
  lemma ReadTextIsClean(t: Str)
    ensures ReadText(START, t).Some? ==> CleanSections(ReadText(START, t).value.out)
  {
    LinesHaveNoBreaks(t);
    ReadIsClean(START, Lines(t));
  }

  // ---------------------------------------------------------------- any text

  /** A line ends at a newline, with or without a carriage return before it, or at the end of the text. */
  lemma LineEnds(line: Str, rest: Str)
    requires NEWLINE !in line
    ensures Lines(line + [RETURN] + [NEWLINE] + rest) == [line] + Lines(rest)
    ensures (line == [] || line[|line| - 1] != RETURN) ==> Lines(line + [NEWLINE] + rest) == [line] + Lines(rest)
    ensures line != [] && line[|line| - 1] != RETURN ==> Lines(line) == [line]
  {
    LinesCons(line + [RETURN], rest);
    assert (line + [RETURN])[..|line|] == line;
    LinesCons(line, rest);
    if line != [] {
      FirstIs(line, NEWLINE, |line|);
    }
  }

  /** A header may have any space around its name and around its brackets. */
  lemma HeaderInAnySpacing(a: Str, b: Str, name: Str, c: Str, d: Str)
    requires AllSpace(a) && AllSpace(b) && AllSpace(c) && AllSpace(d) && Trimmed(name) && HASH !in name
    ensures Classify(a + ([OPEN] + (b + name + c) + [CLOSE]) + d) == Header(name)
  {
    var s := [OPEN] + (b + name + c) + [CLOSE];
    assert HASH !in a + s + d;
    NoCommentUncommented(a + s + d);
    TrimSpaceOfSpaced(a, s, d);
    TrimmedIsFixed(s);
    assert s[1..|s| - 1] == b + name + c;
    TrimSpaceOfSpaced(b, name, c);
    TrimmedIsFixed(name);
  }

  predicate Bracketed(line: Str) {
    line != [] && line[0] == Rune(0x5B) && line[|line| - 1] == Rune(0x5D)
  }

  lemma EqualsIff(line: Str)
    ensures First(line, EQUALS) == |line| <==> Rune(0x3D) !in line
  {
    assert line[..|line|] == line;
  }

  lemma RefusedPairIff(r: Reader, line: Str)
    requires HASH !in line && Trimmed(line) && line != [] && !Bracketed(line)
    ensures ReadLine(r, line) == None <==>
              Rune(0x3D) !in line || r.current == [] || AllSpace(line[..First(line, Rune(0x3D))])
  {
    NoCommentUncommented(line);
    TrimmedIsFixed(line);
    EqualsIff(line);
    BlankIff(line[..First(line, EQUALS)]);
  }

  /** Which lines are refused: an empty section name, a line without '=', a pair outside any section, an empty key. */
  lemma RefusedLineIff(r: Reader, line: Str)
    requires HASH !in line && Trimmed(line)
    ensures ReadLine(r, line) == None <==>
              if line == [] then false
              else if Bracketed(line) then AllSpace(line[1..|line| - 1])
              else Rune(0x3D) !in line || r.current == [] || AllSpace(line[..First(line, Rune(0x3D))])
  {
    NoCommentUncommented(line);
    TrimmedIsFixed(line);
    if Bracketed(line) {
      BlankIff(line[1..|line| - 1]);
    } else if line != [] {
      RefusedPairIff(r, line);
    }
  }

  lemma BlankIff(s: Str)
    ensures TrimSpace(s) == [] <==> AllSpace(s)
  {
    var lo, hi := TrimSpaceSplits(s);
    if lo < hi {
      assert s[lo..hi][0] == s[lo] && !IsSpace(s[lo]);
    }
  }

  // ---------------------------------------------------------------- what is printed, line by line

  lemma NextLine(line: Str, tail: Str)
    requires NEWLINE !in line && DropReturn(line) == line
    ensures Lines(line + [NEWLINE] + tail) == [line] + Lines(tail)
  {
    LinesCons(line, tail);
  }

  lemma PairText(p: KV)
    ensures PairLine(p) == p.k + Lit(" = ") + p.v
  {
    assert Lit(" = ") == [SPACE, EQUALS, SPACE];
  }

  lemma LinesOfPairsStep(kv: seq<KV>, rest: Str)
    requires GoodPairs(kv) && kv != []
    ensures Lines(PairLines(kv) + rest) == [PairLine(kv[0])] + Lines(PairLines(kv[1..]) + rest)
  {
    FourParts(PairLine(kv[0]), PairLines(kv[1..]), rest);
    PairLineIsALine(kv[0]);
    NextLine(PairLine(kv[0]), PairLines(kv[1..]) + rest);
  }

  lemma {:induction false} LinesOfPairs(kv: seq<KV>, rest: Str, i: nat)
    requires GoodPairs(kv) && i < |kv|
    ensures |Lines(PairLines(kv) + rest)| > i && Lines(PairLines(kv) + rest)[i] == PairLine(kv[i])
    decreases |kv|
  {
    LinesOfPairsStep(kv, rest);
    if i > 0 {
      LinesOfPairs(kv[1..], rest, i - 1);
    }
  }

  lemma HeaderLines(name: Str, body: Str)
    requires GoodName(name)
    ensures Lines([OPEN] + name + [CLOSE] + [NEWLINE] + ([NEWLINE] + body)) ==
            [[OPEN] + name + [CLOSE]] + ([[]] + Lines(body))
  {
    ClassifyHeader(name);
    NextLine([OPEN] + name + [CLOSE], [NEWLINE] + body);
    NextLine([], body);
    assert [] + [NEWLINE] + body == [NEWLINE] + body;
  }

  /** A printed section: its name in brackets, an empty line, then one line a pair. */
  lemma LinesOfSection(name: Str, kv: seq<KV>, rest: Str, i: nat)
    requires GoodName(name) && GoodPairs(kv) && i < |kv|
    ensures var lines := Lines(Emitted(name, kv) + rest);
            && |lines| > i + 2 && lines[0] == Lit("[") + name + Lit("]") && lines[1] == []
            && lines[i + 2] == kv[i].k + Lit(" = ") + kv[i].v
  {
    Regrouped(name, PairLines(kv), rest);
    HeaderLines(name, PairLines(kv) + ([NEWLINE] + rest));
    LinesOfPairs(kv, [NEWLINE] + rest, i);
    PairText(kv[i]);
    assert Lit("[") == [OPEN] && Lit("]") == [CLOSE];
  }
}
