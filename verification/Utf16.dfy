/**
  UTF-16 (RFC 2781, section 2): the code units in which LSP counts columns unless another
  encoding was negotiated.  A reference for the counts that the source computes; it never
  encodes a text as UTF-16 itself.
 */
module Utf16 {
  import opened Wrappers
  import opened Utf8
  import opened Positions

  type Unit = u: int | 0 <= u < 0x1_0000

  predicate IsHigh(u: Unit) {
    0xD800 <= u < 0xDC00
  }

  predicate IsLow(u: Unit) {
    0xDC00 <= u < 0xE000
  }

  /** RFC 2781, section 2.1: one unit, or a surrogate pair with ten bits of `c - 0x10000` in each half. */
  function EncodeScalar(c: Scalar): (units: seq<Unit>)
    ensures units != []
  {
    if c < 0x1_0000 then [c]
    else [0xD800 + (c - 0x1_0000) / 0x400, 0xDC00 + (c - 0x1_0000) % 0x400]
  }

  function Encode(t: Text): seq<Unit> {
    if t == [] then [] else EncodeScalar(t[0]) + Encode(t[1..])
  }

  /** RFC 2781, section 2.2: `None` for a surrogate that is not part of a pair. */
  function Decode(units: seq<Unit>): (r: Option<Text>)
    ensures r.Some? ==> Encode(r.value) == units
  {
    if units == [] then
      Some([])
    else if !IsHigh(units[0]) && !IsLow(units[0]) then
      match Decode(units[1..])
      case None => None
      case Some(rest) =>
        assert ([units[0]] + rest)[1..] == rest;
        Some([units[0]] + rest)
    else if IsHigh(units[0]) && |units| > 1 && IsLow(units[1]) then
      match Decode(units[2..])
      case None => None
      case Some(rest) =>
        var high: int, low: int := units[0], units[1];
        var c := 0x1_0000 + (high - 0xD800) * 0x400 + (low - 0xDC00);
        assert ([c] + rest)[1..] == rest;
        assert EncodeScalar(c) == units[..2];
        Some([c] + rest)
    else
      None
  }

  lemma {:induction false} DecodeInvertsEncode(t: Text)
    ensures Decode(Encode(t)) == Some(t)
  {
    if t != [] {
      var first, rest := EncodeScalar(t[0]), Encode(t[1..]);
      DecodeInvertsEncode(t[1..]);
      assert Encode(t)[|first|..] == rest;
      assert t == [t[0]] + t[1..];
    }
  }

  /** The units counted are those of the text in the encoding: bytes, 16-bit units, or scalar values. */
  lemma {:induction false} UnitsAreEncoded(t: Text)
    ensures CodeUnits(t, Utf8Units) == |Utf8.Encode(t)|
    ensures CodeUnits(t, Utf16Units) == |Encode(t)|
    ensures CodeUnits(t, Utf32Units) == |t|
  {
    if t != [] {
      UnitsAreEncoded(t[1..]);
    }
  }

  /**
    A UTF-16 column is valid exactly when the line, as UTF-16, can be cut there without cutting a
    surrogate pair, and it then points behind the characters of the units in front of the cut.
   */
  lemma {:induction false} ColumnIsUnitIndex(line: Text, column: nat, i: nat)
    requires i <= |line|
    ensures Locate(line, column, Utf16Units) == At(i) <==>
            column <= |Encode(line)| && Decode(Encode(line)[..column]) == Some(line[..i])
  {
    EncodeConcat(line[..i], line[i..]);
    assert line == line[..i] + line[i..];
    UnitsAreEncoded(line[..i]);
    DecodeInvertsEncode(line[..i]);
    LocateFinds(line, i, Utf16Units);
    LocateMeaning(line, column, Utf16Units);
    if column == |Encode(line[..i])| {
      assert Encode(line)[..column] == Encode(line[..i]);
    }
  }

  lemma {:induction false} EncodeConcat(s: Text, t: Text)
    ensures Encode(s + t) == Encode(s) + Encode(t)
  {
    if s == [] {
      assert s + t == t;
    } else {
      assert (s + t)[1..] == s[1..] + t;
      EncodeConcat(s[1..], t);
    }
  }
}
