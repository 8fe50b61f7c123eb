/**
  Text as the Rust `str` type holds it: a sequence of Unicode scalar values, stored as
  its UTF-8 bytes (RFC 3629, section 3).  Offsets into a `str` are byte offsets, and
  slicing is defined only at character boundaries.
 */
module Utf8 {
  import opened Wrappers

  type Scalar = c: int | 0 <= c < 0xD800 || 0xE000 <= c < 0x11_0000
  type Byte = b: int | 0 <= b < 0x100
  type Text = seq<Scalar>
  type Bytes = seq<Byte>

  /** `char::len_utf8` */
  function LenUtf8(c: Scalar): nat {
    if c < 0x80 then 1 else if c < 0x800 then 2 else if c < 0x1_0000 then 3 else 4
  }

  predicate IsContinuation(b: Byte) {
    0x80 <= b < 0xC0
  }

  /** The six low bits of `c` in a continuation byte, and back. */
  function Continuation(c: nat): Byte {
    0x80 + c % 0x40
  }

  function Payload(b: Byte): nat
    requires IsContinuation(b)
  {
    b as int - 0x80
  }

  function EncodeScalar(c: Scalar): (b: Bytes)
    ensures |b| == LenUtf8(c)
    ensures !IsContinuation(b[0])
    ensures forall k :: 0 < k < |b| ==> IsContinuation(b[k])
    ensures c < 0x80 ==> b == [c]
    ensures c >= 0x80 ==> forall k :: 0 <= k < |b| ==> b[k] >= 0x80
  {
    if c < 0x80 then
      [c]
    else if c < 0x800 then
      [0xC0 + c / 0x40, Continuation(c)]
    else if c < 0x1_0000 then
      [0xE0 + c / 0x40 / 0x40, Continuation(c / 0x40), Continuation(c)]
    else
      [0xF0 + c / 0x40 / 0x40 / 0x40, Continuation(c / 0x40 / 0x40), Continuation(c / 0x40), Continuation(c)]
  }

  /** `str::as_bytes` */
  function Encode(t: Text): (b: Bytes)
    ensures |t| <= |b|
  {
    if t == [] then [] else EncodeScalar(t[0]) + Encode(t[1..])
  }

  lemma {:induction false} EncodeCons(c: Scalar, rest: Text)
    ensures Encode([c] + rest) == EncodeScalar(c) + Encode(rest)
  {
    assert ([c] + rest)[1..] == rest;
  }

  /** The scalar that a lead byte's bits and the following continuation bytes spell. */
  function Assemble(lead: nat, tail: Bytes): nat
    requires forall k :: 0 <= k < |tail| ==> IsContinuation(tail[k])
  {
    if tail == [] then lead else Assemble(lead, tail[..|tail| - 1]) * 0x40 + Payload(tail[|tail| - 1])
  }

  /** The length a lead byte announces and its payload bits, or `None` for a byte that cannot lead. */
  function Lead(b: Byte): (r: Option<(nat, nat)>)
    ensures r.Some? ==> 1 <= r.value.0 <= 4
  {
    var v: int := b;
    if v < 0x80 then Some((1, v))
    else if 0xC0 <= v < 0xE0 then Some((2, v - 0xC0))
    else if 0xE0 <= v < 0xF0 then Some((3, v - 0xE0))
    else if 0xF0 <= v < 0xF8 then Some((4, v - 0xF0))
    else None
  }

  /**
    The first scalar value of `b` and its length in bytes, or `None` when `b` does not begin
    with one.  Overlong forms, surrogates and values past U+10FFFF are refused.
   */
  function DecodeScalar(b: Bytes): (r: Option<(Scalar, nat)>)
    requires b != []
    ensures r.Some? ==> 1 <= r.value.1 <= |b| && EncodeScalar(r.value.0) == b[..r.value.1]
  {
    match Lead(b[0])
    case None => None
    case Some((n, bits)) =>
      if |b| < n || exists k :: 1 <= k < n && !IsContinuation(b[k]) then
        None
      else
        var c := Assemble(bits, b[1..n]);
        if (0 <= c < 0xD800 || 0xE000 <= c < 0x11_0000) && LenUtf8(c) == n then
          AssembledEncoding(b[..n], bits, c);
          Some((c, n))
        else
          None
  }

  lemma {:induction false} AssembledEncoding(b: Bytes, bits: nat, c: Scalar)
    requires 1 <= |b| == LenUtf8(c) && Lead(b[0]) == Some((|b|, bits))
    requires forall k :: 1 <= k < |b| ==> IsContinuation(b[k])
    requires c == Assemble(bits, b[1..])
    ensures EncodeScalar(c) == b
  {
    AssembleUnfolds(bits, b[1..]);
    var e := EncodeScalar(c);
    assert forall k :: 0 <= k < |b| ==> e[k] == b[k];
  }

  /** Splitting a number back into base-64 digits. */
  lemma {:induction false} DigitsBack(q: nat, p: nat)
    requires p < 0x40
    ensures (q * 0x40 + p) / 0x40 == q && (q * 0x40 + p) % 0x40 == p
  {
  }

  lemma {:induction false} AssembleUnfolds(lead: nat, tail: Bytes)
    requires |tail| <= 3
    requires forall k :: 0 <= k < |tail| ==> IsContinuation(tail[k])
    ensures |tail| == 0 ==> Assemble(lead, tail) == lead
    ensures |tail| >= 1 ==>
      Assemble(lead, tail) / 0x40 == Assemble(lead, tail[..|tail| - 1]) &&
      Assemble(lead, tail) % 0x40 == Payload(tail[|tail| - 1])
    ensures |tail| >= 2 ==>
      Assemble(lead, tail) / 0x40 / 0x40 == Assemble(lead, tail[..|tail| - 2]) &&
      Assemble(lead, tail) / 0x40 % 0x40 == Payload(tail[|tail| - 2])
    ensures |tail| == 3 ==>
      Assemble(lead, tail) / 0x40 / 0x40 / 0x40 == lead &&
      Assemble(lead, tail) / 0x40 / 0x40 % 0x40 == Payload(tail[0])
    decreases |tail|
  {
    if tail != [] {
      var front := tail[..|tail| - 1];
      DigitsBack(Assemble(lead, front), Payload(tail[|tail| - 1]));
      AssembleUnfolds(lead, front);
      if |tail| >= 2 {
        assert front[..|front| - 1] == tail[..|tail| - 2];
      }
    }
  }

  /** `str::from_utf8`: `None` when the bytes are not well-formed UTF-8. */
  function Decode(b: Bytes): (r: Option<Text>)
    ensures r.Some? ==> Encode(r.value) == b
  {
    if b == [] then
      Some([])
    else
      match DecodeScalar(b)
      case None => None
      case Some((c, n)) =>
        match Decode(b[n..])
        case None => None
        case Some(rest) =>
          EncodeCons(c, rest);
          assert b == b[..n] + b[n..];
          Some([c] + rest)
  }

  /** One more base-64 digit. */
  lemma {:induction false} AssembleOne(lead: nat, tail: Bytes, q: nat)
    requires forall k :: 0 <= k < |tail| ==> IsContinuation(tail[k])
    requires Assemble(lead, tail) == q / 0x40
    ensures Assemble(lead, tail + [Continuation(q)]) == q
  {
    assert (tail + [Continuation(q)])[..|tail|] == tail;
  }

  /** Putting the base-64 digits of a number together again. */
  lemma {:induction false} AssembleDigits(c: Scalar)
    ensures var e := EncodeScalar(c);
            Lead(e[0]).Some? && Lead(e[0]).value.0 == |e| && Assemble(Lead(e[0]).value.1, e[1..]) == c
  {
    var e, q: nat := EncodeScalar(c), c;
    if c < 0x80 {
    } else if c < 0x800 {
      AssembleOne(q / 0x40, [], q);
      assert e[1..] == [] + [Continuation(q)];
    } else if c < 0x1_0000 {
      AssembleOne(q / 0x40 / 0x40, [], q / 0x40);
      AssembleOne(q / 0x40 / 0x40, [] + [Continuation(q / 0x40)], q);
      assert e[1..] == [] + [Continuation(q / 0x40)] + [Continuation(q)];
    } else {
      var lead := q / 0x40 / 0x40 / 0x40;
      AssembleOne(lead, [], q / 0x40 / 0x40);
      AssembleOne(lead, [] + [Continuation(q / 0x40 / 0x40)], q / 0x40);
      AssembleOne(lead, [] + [Continuation(q / 0x40 / 0x40)] + [Continuation(q / 0x40)], q);
      assert e[1..] == [] + [Continuation(q / 0x40 / 0x40)] + [Continuation(q / 0x40)] + [Continuation(q)];
    }
  }

  lemma {:induction false} DecodeScalarOfEncoding(c: Scalar, rest: Bytes)
    ensures DecodeScalar(EncodeScalar(c) + rest) == Some((c, LenUtf8(c)))
  {
    var e, b := EncodeScalar(c), EncodeScalar(c) + rest;
    AssembleDigits(c);
    assert b[0] == e[0];
    assert b[1..|e|] == e[1..];
    assert forall k :: 1 <= k < |e| ==> b[k] == e[k];
  }

  /** Encoding loses nothing, so comparing two `str` values by bytes compares their text. */
  lemma {:induction false} DecodeInvertsEncode(t: Text)
    ensures Decode(Encode(t)) == Some(t)
  {
    if t != [] {
      DecodeScalarOfEncoding(t[0], Encode(t[1..]));
      assert Encode(t)[LenUtf8(t[0])..] == Encode(t[1..]);
      DecodeInvertsEncode(t[1..]);
      assert t == [t[0]] + t[1..];
    }
  }

  lemma {:induction false} EncodeInjective(s: Text, t: Text)
    requires Encode(s) == Encode(t)
    ensures s == t
  {
    DecodeInvertsEncode(s);
    DecodeInvertsEncode(t);
  }

  lemma {:induction false} EncodeOne(c: Scalar)
    ensures Encode([c]) == EncodeScalar(c)
  {
    assert [c][1..] == [];
  }

  lemma {:induction false} EncodeConcat(s: Text, t: Text)
    ensures Encode(s + t) == Encode(s) + Encode(t)
  {
    if s == [] {
      assert s + t == t;
    } else {
      assert (s + t)[1..] == s[1..] + t;
      EncodeConcat(s[1..], t);
    }
  }

  /** The byte offset of the scalar at index `i`. */
  function Offset(t: Text, i: nat): (o: nat)
    requires i <= |t|
  {
    |Encode(t[..i])|
  }

  lemma {:induction false} OffsetZero(t: Text)
    ensures Offset(t, 0) == 0
  {
  }

  lemma {:induction false} OffsetSplit(t: Text, i: nat)
    requires i <= |t|
    ensures Encode(t) == Encode(t[..i]) + Encode(t[i..])
    ensures Offset(t, i) <= |Encode(t)|
    ensures Encode(t)[..Offset(t, i)] == Encode(t[..i])
    ensures Encode(t)[Offset(t, i)..] == Encode(t[i..])
  {
    var left, right := Encode(t[..i]), Encode(t[i..]);
    assert Encode(t) == left + right by {
      EncodeConcat(t[..i], t[i..]);
      assert t == t[..i] + t[i..];
    }
    assert (left + right)[..|left|] == left;
    assert (left + right)[|left|..] == right;
  }

  lemma {:induction false} OffsetMonotone(t: Text, i: nat, j: nat)
    requires i <= j <= |t|
    ensures Offset(t, i) + (j - i) <= Offset(t, j) <= |Encode(t)|
  {
    assert t[..j] == t[..i] + t[i..j];
    EncodeConcat(t[..i], t[i..j]);
    OffsetSplit(t, j);
  }

  lemma {:induction false} EncodedAt(t: Text, i: nat)
    requires i < |t|
    ensures Offset(t, i + 1) == Offset(t, i) + LenUtf8(t[i]) <= |Encode(t)|
    ensures forall k :: 0 <= k < LenUtf8(t[i]) ==> Encode(t)[Offset(t, i) + k] == EncodeScalar(t[i])[k]
  {
    assert t[..i + 1] == t[..i] + [t[i]];
    EncodeConcat(t[..i], [t[i]]);
    EncodeOne(t[i]);
    OffsetSplit(t, i + 1);
    var e := Encode(t[..i]) + EncodeScalar(t[i]);
    assert Encode(t)[..Offset(t, i + 1)] == e;
    forall k | 0 <= k < LenUtf8(t[i])
      ensures Encode(t)[Offset(t, i) + k] == EncodeScalar(t[i])[k]
    {
      assert Encode(t)[Offset(t, i) + k] == e[Offset(t, i) + k];
    }
  }

  /** `str::is_char_boundary` */
  predicate IsCharBoundary(b: Bytes, offset: nat) {
    offset == 0 || offset == |b| || (offset < |b| && !IsContinuation(b[offset]))
  }

  /** The byte test finds exactly the offsets at which a scalar begins, and the end of the text. */
  lemma {:induction false} BoundaryIsOffset(t: Text, offset: nat)
    ensures IsCharBoundary(Encode(t), offset) <==> exists i :: 0 <= i <= |t| && offset == Offset(t, i)
  {
    if IsCharBoundary(Encode(t), offset) {
      var i := FindBoundary(t, offset);
    }
    if i :| 0 <= i <= |t| && offset == Offset(t, i) {
      OffsetSplit(t, i);
      if i < |t| {
        assert Encode(t)[offset] == Encode(t[i..])[0] == EncodeScalar(t[i])[0];
      } else {
        assert t[..i] == t;
      }
    }
  }

  lemma {:induction false} FindBoundary(t: Text, offset: nat) returns (i: nat)
    requires IsCharBoundary(Encode(t), offset)
    ensures i <= |t| && offset == Offset(t, i)
  {
    if offset == 0 {
      i := 0;
    } else {
      var n := LenUtf8(t[0]);
      assert offset >= n by {
        assert forall k :: 0 < k < n ==> Encode(t)[k] == EncodeScalar(t[0])[k];
      }
      if n < offset < |Encode(t)| {
        assert Encode(t)[offset] == Encode(t[1..])[offset - n];
      }
      i := FindBoundary(t[1..], offset - n);
      assert t[..i + 1][1..] == t[1..][..i];
      i := i + 1;
    }
  }

  /** The index of the scalar that begins at byte `offset`. */
  function ScalarIndex(t: Text, offset: nat): (i: nat)
    requires IsCharBoundary(Encode(t), offset)
    ensures i <= |t| && Offset(t, i) == offset
  {
    BoundaryIsOffset(t, offset);
    OffsetInjectiveEverywhere(t);
    var i :| 0 <= i <= |t| && offset == Offset(t, i);
    i
  }

  lemma {:induction false} OffsetInjectiveEverywhere(t: Text)
    ensures forall i, j :: 0 <= i <= |t| && 0 <= j <= |t| && Offset(t, i) == Offset(t, j) ==> i == j
  {
    forall i: nat, j: nat | i < j <= |t|
      ensures Offset(t, i) != Offset(t, j)
    {
      OffsetMonotone(t, i, j);
    }
  }

  lemma {:induction false} ScalarIndexOfOffset(t: Text, i: nat)
    requires i <= |t|
    ensures IsCharBoundary(Encode(t), Offset(t, i)) && ScalarIndex(t, Offset(t, i)) == i
  {
    BoundaryIsOffset(t, Offset(t, i));
    OffsetInjectiveEverywhere(t);
  }

  /** `&text[from..to]`, which Rust defines only on character boundaries in order. */
  function Slice(t: Text, from: nat, to: nat): (s: Text)
    requires from <= to
    requires IsCharBoundary(Encode(t), from) && IsCharBoundary(Encode(t), to)
    ensures Encode(s) == Encode(t)[from..to]
  {
    var i, j := ScalarIndex(t, from), ScalarIndex(t, to);
    assert i <= j by {
      if j < i {
        OffsetMonotone(t, j, i);
      }
    }
    assert Encode(t[i..j]) == Encode(t)[from..to] by {
      OffsetSplit(t, j);
      OffsetSplit(t[..j], i);
      assert t[..j][..i] == t[..i];
      assert Encode(t)[..to] == Encode(t[..j]);
      assert Encode(t)[from..to] == Encode(t)[..to][from..];
    }
    t[i..j]
  }
}
