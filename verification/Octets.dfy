/** Big-endian numbers and the order of byte strings. */
module Octets {
  import opened Basics

  function Pow2(n: nat): (r: nat)
    ensures r > 0
  {
    if n == 0 then 1 else 2 * Pow2(n - 1)
  }

  lemma {:induction false} Pow2Add(a: nat, b: nat)
    ensures Pow2(a + b) == Pow2(a) * Pow2(b)
  {
    if a > 0 {
      Pow2Add(a - 1, b);
      assert Pow2(a + b) == 2 * Pow2(a - 1 + b);
      assert 2 * (Pow2(a - 1) * Pow2(b)) == (2 * Pow2(a - 1)) * Pow2(b);
    }
  }

  lemma {:induction false} Pow2Monotone(a: nat, b: nat)
    ensures Pow2(a) > 0
    ensures a <= b ==> Pow2(a) <= Pow2(b)
    ensures a < b ==> 2 * Pow2(a) <= Pow2(b)
    decreases a + b
  {
    if a > 0 {
      if b > 0 {
        Pow2Monotone(a - 1, b - 1);
      } else {
        Pow2Monotone(a - 1, b);
      }
    } else if b > 0 {
      Pow2Monotone(a, b - 1);
    }
  }

  /** The number that a byte string writes, most significant byte first. */
  function FromBE(s: bytes): nat {
    if s == [] then 0 else 256 * FromBE(s[..|s| - 1]) + s[|s| - 1]
  }

  /** The `w` bytes of `n`, most significant first; higher bytes are cut off. */
  function ToBE(n: nat, w: nat): (s: bytes)
    ensures |s| == w
  {
    if w == 0 then [] else ToBE(n / 256, w - 1) + [n % 256]
  }

  lemma {:induction false} FromToBE(n: nat, w: nat)
    requires n < Pow2(8 * w)
    ensures FromBE(ToBE(n, w)) == n
  {
    if w > 0 {
      Pow2Add(8, 8 * (w - 1));
      assert Pow2(8) == 256;
      assert n / 256 < Pow2(8 * (w - 1));
      FromToBE(n / 256, w - 1);
      assert ToBE(n, w)[..w - 1] == ToBE(n / 256, w - 1);
    }
  }

  lemma {:induction false} FromBEBound(s: bytes)
    ensures FromBE(s) < Pow2(8 * |s|)
  {
    if s != [] {
      FromBEBound(s[..|s| - 1]);
      Pow2Add(8, 8 * (|s| - 1));
      assert Pow2(8) == 256;
    }
  }

  lemma ShiftIn(x: nat, w: nat, y: nat, last: nat)
    ensures 256 * (x * w + y) + last == x * (256 * w) + (256 * y + last)
  {}

  /** The leading digit decides between two numbers whose rests are below the base. */
  lemma LeadingDigitDecides(x: nat, y: nat, w: nat, p: nat, q: nat)
    requires x < y && p < w
    ensures x * w + p < y * w + q
  {
    assert y * w == (y - x - 1) * w + x * w + w;
    assert (y - x - 1) * w >= 0;
  }

  lemma {:induction false} FromBEConcat(a: bytes, b: bytes)
    ensures FromBE(a + b) == FromBE(a) * Pow2(8 * |b|) + FromBE(b)
  {
    if b == [] {
      assert a + b == a;
    } else {
      var n := |b| - 1;
      assert (a + b)[..|a + b| - 1] == a + b[..n];
      FromBEConcat(a, b[..n]);
      Pow2Add(8, 8 * n);
      assert Pow2(8) == 256;
      ShiftIn(FromBE(a), Pow2(8 * n), FromBE(b[..n]), b[n]);
    }
  }

  lemma FromBEHead(s: bytes)
    requires s != []
    ensures FromBE(s) == s[0] * Pow2(8 * (|s| - 1)) + FromBE(s[1..])
  {
    FromBEConcat([s[0]], s[1..]);
    assert [s[0]] + s[1..] == s;
    assert [s[0]][..0] == [];
    assert FromBE([s[0]]) == s[0];
  }

  // ---------------------------------------------------------------- order

  /** bytes.Compare(a, b) <= 0 */
  predicate LexLeq(a: bytes, b: bytes) {
    a == [] || (b != [] && (a[0] < b[0] || (a[0] == b[0] && LexLeq(a[1..], b[1..]))))
  }

  /** On byte strings of one length the lexicographic order is the order of the numbers. */
  lemma {:induction false} LexIsNumeric(a: bytes, b: bytes)
    requires |a| == |b|
    ensures LexLeq(a, b) <==> FromBE(a) <= FromBE(b)
  {
    if a != [] {
      FromBEHead(a);
      FromBEHead(b);
      FromBEBound(a[1..]);
      FromBEBound(b[1..]);
      LexIsNumeric(a[1..], b[1..]);
      var w := Pow2(8 * (|a| - 1));
      if a[0] < b[0] {
        LeadingDigitDecides(a[0], b[0], w, FromBE(a[1..]), FromBE(b[1..]));
      } else if b[0] < a[0] {
        LeadingDigitDecides(b[0], a[0], w, FromBE(b[1..]), FromBE(a[1..]));
      }
    }
  }
}
