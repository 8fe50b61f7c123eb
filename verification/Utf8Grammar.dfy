/**
  The definition of UTF-8 by its grammar and its table (RFC 3629): what the encoder of
  module `Utf8` is measured by.
 */
module Utf8Grammar {
  import opened Wrappers
  import opened Utf8

  predicate IsTail(b: Byte) {
    0x80 <= b <= 0xBF
  }

  /** `UTF8-char` in the grammar of RFC 3629, section 4. */
  predicate IsUtf8Char(b: Bytes) {
    || (|b| == 1 && b[0] <= 0x7F)
    || (|b| == 2 && 0xC2 <= b[0] <= 0xDF && IsTail(b[1]))
    || (|b| == 3 && IsTail(b[2]) &&
        (|| (b[0] == 0xE0 && 0xA0 <= b[1] <= 0xBF)
         || ((0xE1 <= b[0] <= 0xEC || 0xEE <= b[0] <= 0xEF) && IsTail(b[1]))
         || (b[0] == 0xED && 0x80 <= b[1] <= 0x9F)))
    || (|b| == 4 && IsTail(b[2]) && IsTail(b[3]) &&
        (|| (b[0] == 0xF0 && 0x90 <= b[1] <= 0xBF)
         || (0xF1 <= b[0] <= 0xF3 && IsTail(b[1]))
         || (b[0] == 0xF4 && 0x80 <= b[1] <= 0x8F)))
  }

  /** The character number that the bits of such bytes give, by the table of RFC 3629, section 3. */
  function CharacterNumber(b: Bytes): int
    requires IsUtf8Char(b)
  {
    var v: seq<int> := b;
    if |b| == 1 then v[0]
    else if |b| == 2 then (v[0] - 0xC0) * 64 + (v[1] - 0x80)
    else if |b| == 3 then (v[0] - 0xE0) * 4096 + (v[1] - 0x80) * 64 + (v[2] - 0x80)
    else (v[0] - 0xF0) * 262144 + (v[1] - 0x80) * 4096 + (v[2] - 0x80) * 64 + (v[3] - 0x80)
  }

  /** A scalar value is encoded as the one `UTF8-char` with its number. */
  lemma {:induction false} EncodedByRfc(c: Scalar)
    ensures IsUtf8Char(EncodeScalar(c)) && CharacterNumber(EncodeScalar(c)) == c
  {
    BaseSixtyFour(c);
    BaseSixtyFour(c / 0x40);
    BaseSixtyFour(c / 0x40 / 0x40);
  }

  lemma {:induction false} BaseSixtyFour(n: nat)
    ensures n == n / 0x40 * 0x40 + n % 0x40
  {
  }

  /** Nothing but the encoding of a scalar value is a `UTF8-char`. */
  lemma {:induction false} RfcIsEncoded(b: Bytes)
    requires IsUtf8Char(b)
    ensures var c := CharacterNumber(b); (0 <= c < 0xD800 || 0xE000 <= c < 0x11_0000) && EncodeScalar(c) == b
  {
    AssembledByRfc(b);
    AssembledEncoding(b, Lead(b[0]).value.1, CharacterNumber(b));
  }

  lemma {:induction false} AssembledByRfc(b: Bytes)
    requires IsUtf8Char(b)
    ensures Lead(b[0]).Some? && Lead(b[0]).value.0 == |b|
    ensures (forall k :: 1 <= k < |b| ==> IsContinuation(b[k])) && Assemble(Lead(b[0]).value.1, b[1..]) == CharacterNumber(b)
  {
    var lead, tail := Lead(b[0]).value.1, b[1..];
    assert Assemble(lead, tail[..0]) == lead;
    if |b| >= 2 {
      assert tail[..1][..0] == tail[..0];
      assert Assemble(lead, tail[..1]) == lead * 0x40 + Payload(b[1]);
    }
    if |b| >= 3 {
      assert tail[..2][..1] == tail[..1];
      assert Assemble(lead, tail[..2]) == Assemble(lead, tail[..1]) * 0x40 + Payload(b[2]);
    }
    if |b| == 4 {
      assert tail[..3][..2] == tail[..2];
      assert Assemble(lead, tail[..3]) == Assemble(lead, tail[..2]) * 0x40 + Payload(b[3]);
    }
    assert tail == tail[..|tail|];
  }
}
