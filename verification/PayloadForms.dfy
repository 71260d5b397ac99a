/** Payloads behind the header forms that the encoder does not write but the decoder reads. */
module PayloadForms {
  import opened Basics
  import opened MsgPack
  import opened MsgPackProofs
  import opened Octets
  import opened Payload

  /** The forms in which four or five elements can be announced. */
  predicate Announces(header: bytes, n: nat) {
    (n == 4 || n == 5) && (header == [0x90 + n] || header == [0xDC, 0, n] || header == [0xDD, 0, 0, 0, n])
  }

  lemma NumberOfSmall(n: byte)
    ensures FromBE([0, n]) == n && FromBE([0, 0, 0, n]) == n
  {
    var a: bytes, b: bytes, c: bytes := [0], [0, 0], [0, 0, 0];
    assert a[..0] == [] && b[..1] == a && c[..2] == b;
    assert FromBE(a) == 0 && FromBE(b) == 0 && FromBE(c) == 0;
    assert [0, n][..1] == a && [0, 0, 0, n][..3] == c;
  }

  lemma HeaderHead(header: bytes, n: nat, body: bytes)
    requires Announces(header, n)
    ensures ParseHead(header + body) == Sized(KArr, n, body)
  {
    NumberOfSmall(n);
    if |header| == 1 {
      ShortForms(0x90 + n, body);
    } else if |header| == 3 {
      LengthForms(1, [0, n], body);
      assert header == [0xDC] + [0, n];
    } else {
      LengthForms(2, [0, 0, 0, n], body);
      assert header == [0xDD] + [0, 0, 0, n];
    }
  }

  /**
   Whatever form of header announces them: four elements are hashed with the header they came with, five
   are hashed as the first four behind a short one.
   */
  lemma SplitBehindAnyHeader(header: bytes, first: bytes, last: bytes)
    requires DecodeTop(first, 4).Ok? && DecodeTop(first, 4).rest == []
    ensures Announces(header, 4) ==> Split(header + first) == Accepted(DecodeTop(first, 4).v, header + first)
    ensures Announces(header, 5) && DecodeTop(last, 1).Ok? && DecodeTop(last, 1).rest == [] ==>
              Split(header + (first + last)) == Accepted(DecodeTop(first, 4).v + DecodeTop(last, 1).v, [0x94] + first)
  {
    TopNeedsBytes(first, 4);
    if Announces(header, 4) {
      HeaderHead(header, 4, first);
      assert DecodeTop(first, 4).v + [] == DecodeTop(first, 4).v;
    }
    if Announces(header, 5) && DecodeTop(last, 1).Ok? && DecodeTop(last, 1).rest == [] {
      HeaderHead(header, 5, first + last);
      TopNeedsBytes(last, 1);
      TopExtends(first, last, 4);
      assert [] + last == last;
      assert (first + last)[..|first|] == first;
    }
  }

  lemma {:induction false} TopNeedsBytes(data: bytes, n: nat)
    requires DecodeTop(data, n).Ok?
    ensures n + |DecodeTop(data, n).rest| <= |data|
    decreases n
  {
    if n > 0 {
      TopNeedsBytes(Decode(data, 0, 0, false).rest, n - 1);
    }
  }
}
