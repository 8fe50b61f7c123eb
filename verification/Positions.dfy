/**
  src/positions.rs: converting positions between UTF-8, UTF-16 and UTF-32 code units
  (LSP 3.17, "Position").  The loops of the source are methods that scan bytes; each is
  tied to a function on the lines of the text, and the laws of conversion are proved
  about those functions.
 */
module Positions {
  import opened Wrappers
  import opened Utf8
  import opened Lines

  type U32 = n: int | 0 <= n < 0x1_0000_0000

  datatype Position = Position(line: U32, character: U32)

  /** The derived ordering of `Position`: by line, then by character. */
  predicate Before(p: Position, q: Position) {
    p.line < q.line || (p.line == q.line && p.character < q.character)
  }

  datatype Range = Range(start: Position, end: Position)

  datatype PositionEncoding = Utf8Units | Utf16Units | Utf32Units

  datatype Coordinate = LineCoordinate | CharacterCoordinate

  datatype PositionError =
    | LineOutOfBounds(line: U32, lineCount: nat)
    | CharacterOutOfBounds(position: Position, encoding: PositionEncoding, lineLength: nat)
    | InvalidCharacterBoundary(position: Position, encoding: PositionEncoding)
    | ReversedRange(range: Range)
    | CoordinateOverflow(coordinate: Coordinate, value: nat)

  /** `PositionEncoding::code_units`; UTF-16 lengths are those of RFC 2781, section 2.1. */
  function ScalarUnits(c: Scalar, encoding: PositionEncoding): (n: nat)
    ensures 1 <= n <= 4
  {
    match encoding
    case Utf8Units => LenUtf8(c)
    case Utf16Units => if c < 0x1_0000 then 1 else 2
    case Utf32Units => 1
  }

  function CodeUnits(t: Text, encoding: PositionEncoding): nat {
    if t == [] then 0 else ScalarUnits(t[0], encoding) + CodeUnits(t[1..], encoding)
  }

  function ToU32(coordinate: Coordinate, value: nat): Result<U32, PositionError> {
    if value < 0x1_0000_0000 then Ok(value) else Err(CoordinateOverflow(coordinate, value))
  }

  // ----- specification of the three loops -----

  function LineAt(text: Text, wanted: U32): Result<Text, PositionError> {
    if wanted < LineCount(text) then Ok(Line(text, wanted))
    else Err(LineOutOfBounds(wanted, LineCount(text)))
  }

  /** Where `wanted` code units from the start of a line lead. */
  datatype Place = At(index: nat) | Inside | Past(length: nat)

  function Locate(line: Text, wanted: nat, encoding: PositionEncoding): Place {
    if wanted == 0 then At(0)
    else if line == [] then Past(0)
    else
      var n := ScalarUnits(line[0], encoding);
      if wanted < n then Inside
      else
        match Locate(line[1..], wanted - n, encoding)
        case At(i) => At(i + 1)
        case Inside => Inside
        case Past(length) => Past(length + n)
  }

  function ByteOffsetAt(line: Text, position: Position, encoding: PositionEncoding): (r: Result<nat, PositionError>)
    ensures r.Ok? ==> IsCharBoundary(Encode(line), r.value)
  {
    match Locate(line, position.character, encoding)
    case At(i) =>
      LocateMeaning(line, position.character, encoding);
      ScalarIndexOfOffset(line, i);
      Ok(Offset(line, i))
    case Inside => Err(InvalidCharacterBoundary(position, encoding))
    case Past(length) => Err(CharacterOutOfBounds(position, encoding, length))
  }

  // ----- the loops -----

  /** `logical_line` */
  method LogicalLine(text: Text, wanted: U32) returns (r: Result<Text, PositionError>)
    ensures r == LineAt(text, wanted)
  {
    hide Encode, SpansFrom, Slice;
    var bytes := Encode(text);
    var current, start, cursor := 0, 0, 0;
    BytesAndScalarsAgree(text);
    while cursor < |bytes|
      invariant Scanned(bytes, cursor, current, start)
      invariant current <= wanted
      decreases |bytes| - cursor
    {
      var newlineLength;
      if bytes[cursor] == CR && cursor + 1 < |bytes| && bytes[cursor + 1] == LF {
        newlineLength := 2;
      } else if bytes[cursor] == CR || bytes[cursor] == LF {
        newlineLength := 1;
      } else {
        ScanPassesPlain(bytes, cursor, current, start);
        cursor := cursor + 1;
        continue;
      }
      ScanPassesBreak(bytes, cursor, current, start);
      if current == wanted {
        var line := SliceOfLine(text, current, start, cursor);
        return Ok(line);
      }
      current := current + 1;
      cursor := cursor + newlineLength;
      start := cursor;
    }
    ScanEnds(bytes, current, start);
    if current == wanted {
      var line := SliceOfLine(text, current, start, |bytes|);
      r := Ok(line);
    } else {
      r := Err(LineOutOfBounds(wanted, current + 1));
    }
  }

  /** `&text[start..end]` for the line that a scan has delimited. */
  method SliceOfLine(text: Text, ghost line: nat, start: nat, end: nat) returns (s: Text)
    requires line < LineCount(Encode(text)) && Spans(Encode(text))[line] == Span(start, end)
    ensures line < LineCount(text)
    ensures s == Line(text, line)
  {
    LineSlice(text, line);
    s := Slice(text, start, end);
  }

  /** `final_line` */
  method FinalLine(text: Text) returns (line: nat, last: Text)
    ensures line == LineCount(text) - 1
    ensures last == Line(text, line)
  {
    hide Encode, SpansFrom, Slice;
    var bytes := Encode(text);
    line := 0;
    var start, cursor := 0, 0;
    while cursor < |bytes|
      invariant Scanned(bytes, cursor, line, start)
      decreases |bytes| - cursor
    {
      if bytes[cursor] == CR {
        ScanPassesBreak(bytes, cursor, line, start);
        if cursor + 1 < |bytes| && bytes[cursor + 1] == LF {
          cursor := cursor + 1;
        }
        line := line + 1;
        start := cursor + 1;
      } else if bytes[cursor] == LF {
        ScanPassesBreak(bytes, cursor, line, start);
        line := line + 1;
        start := cursor + 1;
      } else {
        ScanPassesPlain(bytes, cursor, line, start);
      }
      cursor := cursor + 1;
    }
    ScanEnds(bytes, line, start);
    BytesAndScalarsAgree(text);
    last := SliceOfLine(text, line, start, |bytes|);
  }

  /** The code-unit scan has passed `i` characters, `units` code units and `byteOffset` bytes. */
  ghost predicate UnitsPassed(line: Text, wanted: nat, encoding: PositionEncoding, i: nat, units: nat, byteOffset: nat) {
    && i <= |line|
    && byteOffset == Offset(line, i) && units == CodeUnits(line[..i], encoding) <= wanted
    && Locate(line, wanted, encoding) == Shifted(Locate(line[i..], wanted - units, encoding), i, units)
  }

  lemma {:induction false} NoUnitsPassed(line: Text, wanted: nat, encoding: PositionEncoding)
    ensures UnitsPassed(line, wanted, encoding, 0, 0, 0)
  {
    OffsetZero(line);
    hide Locate, Offset;
    assert line[0..] == line && line[..0] == [];
  }

  /** What is located from the next character on, after that character. */
  lemma {:induction false} LocateUnfolds(line: Text, i: nat, wanted: nat, encoding: PositionEncoding)
    requires i < |line| && wanted > 0
    ensures var n := ScalarUnits(line[i], encoding);
            Locate(line[i..], wanted, encoding) ==
            if wanted < n then Inside else Shifted(Locate(line[i + 1..], wanted - n, encoding), 1, n)
  {
    assert line[i..][1..] == line[i + 1..];
  }

  /** The scan stops at the wanted character, inside one, or goes on. */
  lemma {:induction false} UnitsStep(line: Text, wanted: nat, encoding: PositionEncoding, i: nat, units: nat,
                                     byteOffset: nat)
    requires i < |line| && UnitsPassed(line, wanted, encoding, i, units, byteOffset)
    ensures byteOffset == Offset(line, i) && units <= wanted
    ensures units == wanted ==> Locate(line, wanted, encoding) == At(i)
    ensures var next := units + ScalarUnits(line[i], encoding);
            && (units < wanted < next ==> Locate(line, wanted, encoding) == Inside)
            && (units < wanted && next <= wanted ==>
                  UnitsPassed(line, wanted, encoding, i + 1, next, byteOffset + LenUtf8(line[i])))
  {
    hide Offset, CodeUnits;
    UnitsExtend(line, i, encoding);
    if units == wanted {
      assert Locate(line[i..], 0, encoding) == At(0);
    } else {
      LocateUnfolds(line, i, wanted - units, encoding);
      hide Locate;
    }
  }

  lemma {:induction false} UnitsEnd(line: Text, wanted: nat, encoding: PositionEncoding, units: nat, byteOffset: nat)
    requires UnitsPassed(line, wanted, encoding, |line|, units, byteOffset)
    ensures Locate(line, wanted, encoding) == if units == wanted then At(|line|) else Past(units)
  {
    assert line[|line|..] == [];
  }

  /** `byte_offset` */
  method ByteOffset(line: Text, position: Position, encoding: PositionEncoding) returns (r: Result<nat, PositionError>)
    ensures r == ByteOffsetAt(line, position, encoding)
  {
    hide Encode, Offset, Locate, CodeUnits, UnitsPassed;
    var units: nat, byteOffset: nat := 0, 0;
    NoUnitsPassed(line, position.character, encoding);
    for i := 0 to |line|
      invariant UnitsPassed(line, position.character, encoding, i, units, byteOffset)
    {
      UnitsStep(line, position.character, encoding, i, units, byteOffset);
      if units == position.character {
        return Ok(byteOffset);
      }
      units := units + ScalarUnits(line[i], encoding);
      if position.character < units {
        return Err(InvalidCharacterBoundary(position, encoding));
      }
      byteOffset := byteOffset + LenUtf8(line[i]);
    }
    UnitsEnd(line, position.character, encoding, units, byteOffset);
    OffsetOfAll(line);
    if units == position.character {
      r := Ok(|Encode(line)|);
    } else {
      r := Err(CharacterOutOfBounds(position, encoding, units));
    }
  }

  lemma {:induction false} OffsetOfAll(line: Text)
    ensures Offset(line, |line|) == |Encode(line)|
  {
    assert line[..|line|] == line;
  }

  function Shifted(p: Place, scalars: nat, units: nat): Place {
    match p
    case At(i) => At(i + scalars)
    case Inside => Inside
    case Past(length) => Past(length + units)
  }

  // ----- conversion -----

  function ConvertPosition(text: Text, position: Position, source: PositionEncoding, target: PositionEncoding)
    : Result<Position, PositionError>
  {
    var line :- LineAt(text, position.line);
    var byteOffset :- ByteOffsetAt(line, position, source);
    var character :- ToU32(CharacterCoordinate, CodeUnits(Slice(line, 0, byteOffset), target));
    Ok(Position(position.line, character))
  }

  function ConvertRange(text: Text, range: Range, source: PositionEncoding, target: PositionEncoding)
    : Result<Range, PositionError>
  {
    if Before(range.end, range.start) then
      Err(ReversedRange(range))
    else
      var start :- ConvertPosition(text, range.start, source, target);
      var end :- ConvertPosition(text, range.end, source, target);
      Ok(Range(start, end))
  }

  function EndPosition(text: Text, encoding: PositionEncoding): Result<Position, PositionError> {
    var last := LineCount(text) - 1;
    var line :- ToU32(LineCoordinate, last);
    var character :- ToU32(CharacterCoordinate, CodeUnits(Line(text, last), encoding));
    Ok(Position(line, character))
  }

  /** The scalar index that LSP assigns to a position in the given encoding, if the position is valid. */
  function LspIndex(text: Text, position: Position, encoding: PositionEncoding): (r: Option<nat>) {
    if position.line >= LineCount(text) then None
    else
      match Locate(Line(text, position.line), position.character, encoding)
      case At(i) => Some(Spans(text)[position.line].start + i)
      case _ => None
  }

  // ----- laws -----

  /** The units of a prefix are those of its first character and of the rest. */
  lemma {:induction false} UnitsOfPrefix(line: Text, i: nat, encoding: PositionEncoding)
    requires 0 < i <= |line|
    ensures CodeUnits(line[..i], encoding) == ScalarUnits(line[0], encoding) + CodeUnits(line[1..][..i - 1], encoding)
  {
    assert line[..i][1..] == line[1..][..i - 1];
  }

  /** A column is at a boundary, inside a character, or past the line. */
  ghost predicate Located(line: Text, wanted: nat, encoding: PositionEncoding, p: Place) {
    && (p.At? ==> p.index <= |line| && CodeUnits(line[..p.index], encoding) == wanted)
    && (p.Inside? ==> wanted < CodeUnits(line, encoding) &&
                      forall i :: 0 <= i <= |line| ==> CodeUnits(line[..i], encoding) != wanted)
    && (p.Past? ==> p.length == CodeUnits(line, encoding) < wanted)
  }

  lemma {:induction false} LocatedFurther(line: Text, wanted: nat, encoding: PositionEncoding, p: Place)
    requires line != [] && ScalarUnits(line[0], encoding) <= wanted
    requires Located(line[1..], wanted - ScalarUnits(line[0], encoding), encoding, p)
    ensures Located(line, wanted, encoding, Shifted(p, 1, ScalarUnits(line[0], encoding)))
  {
    UnitsOfPrefix(line, |line|, encoding);
    assert line[..|line|] == line && line[1..][..|line| - 1] == line[1..];
    if p.At? {
      UnitsOfPrefix(line, p.index + 1, encoding);
    } else if p.Inside? {
      assert CodeUnits(line[..0], encoding) == 0;
      hide CodeUnits;
      forall i | 0 <= i <= |line|
        ensures CodeUnits(line[..i], encoding) != wanted
      {
        if i > 0 {
          UnitsOfPrefix(line, i, encoding);
        }
      }
    }
  }

  lemma {:induction false} LocatedInside(line: Text, wanted: nat, encoding: PositionEncoding)
    requires line != [] && 0 < wanted < ScalarUnits(line[0], encoding)
    ensures Located(line, wanted, encoding, Inside)
  {
    UnitsOfPrefix(line, |line|, encoding);
    assert line[..|line|] == line;
    assert CodeUnits(line[..0], encoding) == 0;
    hide CodeUnits;
    forall i | 0 <= i <= |line|
      ensures CodeUnits(line[..i], encoding) != wanted
    {
      if i > 0 {
        UnitsOfPrefix(line, i, encoding);
      }
    }
  }

  lemma {:induction false} LocateMeaning(line: Text, wanted: nat, encoding: PositionEncoding)
    ensures Located(line, wanted, encoding, Locate(line, wanted, encoding))
  {
    if wanted > 0 && line != [] {
      hide Located, CodeUnits, ScalarUnits;
      if wanted < ScalarUnits(line[0], encoding) {
        LocatedInside(line, wanted, encoding);
      } else {
        LocateMeaning(line[1..], wanted - ScalarUnits(line[0], encoding), encoding);
        LocatedFurther(line, wanted, encoding, Locate(line[1..], wanted - ScalarUnits(line[0], encoding), encoding));
      }
    }
  }

  /** Every character boundary is found again from its own number of code units. */
  lemma {:induction false} LocateFinds(line: Text, i: nat, encoding: PositionEncoding)
    requires i <= |line|
    ensures Locate(line, CodeUnits(line[..i], encoding), encoding) == At(i)
  {
    if i > 0 {
      assert line[..i][1..] == line[1..][..i - 1];
      LocateFinds(line[1..], i - 1, encoding);
    }
  }

  lemma {:induction false} UnitsConcat(s: Text, t: Text, encoding: PositionEncoding)
    ensures CodeUnits(s + t, encoding) == CodeUnits(s, encoding) + CodeUnits(t, encoding)
  {
    if s == [] {
      assert s + t == t;
    } else {
      assert (s + t)[1..] == s[1..] + t;
      UnitsConcat(s[1..], t, encoding);
    }
  }

  lemma {:induction false} UnitsExtend(line: Text, i: nat, encoding: PositionEncoding)
    requires i < |line|
    ensures CodeUnits(line[..i + 1], encoding) == CodeUnits(line[..i], encoding) + ScalarUnits(line[i], encoding)
    ensures Offset(line, i + 1) == Offset(line, i) + LenUtf8(line[i])
  {
    assert line[..i + 1] == line[..i] + [line[i]];
    UnitsConcat(line[..i], [line[i]], encoding);
    assert [line[i]][1..] == [];
    EncodeConcat(line[..i], [line[i]]);
    EncodeOne(line[i]);
  }

  lemma {:induction false} UnitsMonotone(line: Text, i: nat, j: nat, encoding: PositionEncoding)
    requires i < j <= |line|
    ensures CodeUnits(line[..i], encoding) < CodeUnits(line[..j], encoding)
  {
    assert line[..j] == line[..i] + line[i..j];
    UnitsConcat(line[..i], line[i..j], encoding);
  }

  lemma {:induction false} LineSlice(text: Text, k: nat)
    requires k < LineCount(Encode(text))
    ensures k < LineCount(text)
    ensures var span := Spans(Encode(text))[k];
            IsCharBoundary(Encode(text), span.start) && IsCharBoundary(Encode(text), span.end) &&
            Slice(text, span.start, span.end) == Line(text, k)
  {
    BytesAndScalarsAgree(text);
    ScalarIndexOfOffset(text, Spans(text)[k].start);
    ScalarIndexOfOffset(text, Spans(text)[k].end);
  }

  /** What conversion does, in scalar terms: it keeps the boundary and counts again. */
  lemma {:induction false} ConvertMeaning(text: Text, p: Position, source: PositionEncoding, target: PositionEncoding)
    requires p.line < LineCount(text)
    ensures var line, r := Line(text, p.line), ConvertPosition(text, p, source, target);
            var place := Locate(line, p.character, source);
            && (place.At? ==>
                  place.index <= |line| && CodeUnits(line[..place.index], source) == p.character &&
                  var units := CodeUnits(line[..place.index], target);
                  r == if units < 0x1_0000_0000 then Ok(Position(p.line, units))
                       else Err(CoordinateOverflow(CharacterCoordinate, units)))
            && (place.Inside? ==> r == Err(InvalidCharacterBoundary(p, source)))
            && (place.Past? ==> r == Err(CharacterOutOfBounds(p, source, place.length)))
  {
    var line := Line(text, p.line);
    var place := Locate(line, p.character, source);
    LocateMeaning(line, p.character, source);
    if place.At? {
      ScalarIndexOfOffset(line, place.index);
      ScalarIndexOfOffset(line, 0);
    }
  }

  /**
    A position is rejected exactly when its line does not exist, when it lies past the end
    of its line, or when it splits a character; the only other failure is a result that
    does not fit `u32`.
   */
  lemma {:induction false} RejectedExactly(text: Text, p: Position, source: PositionEncoding, target: PositionEncoding)
    ensures var r := ConvertPosition(text, p, source, target);
            && (r == Err(LineOutOfBounds(p.line, LineCount(text))) <==> p.line >= LineCount(text))
            && (p.line < LineCount(text) ==>
                  var line := Line(text, p.line);
                  && (p.character > CodeUnits(line, source) <==>
                        r == Err(CharacterOutOfBounds(p, source, CodeUnits(line, source))))
                  && ((p.character < CodeUnits(line, source) &&
                       forall i :: 0 <= i <= |line| ==> CodeUnits(line[..i], source) != p.character) <==>
                        r == Err(InvalidCharacterBoundary(p, source)))
                  && (r.Ok? <==> exists i :: 0 <= i <= |line| && CodeUnits(line[..i], source) == p.character &&
                                             CodeUnits(line[..i], target) < 0x1_0000_0000))
  {
    if p.line < LineCount(text) {
      var line := Line(text, p.line);
      ConvertMeaning(text, p, source, target);
      LocateMeaning(line, p.character, source);
      forall i | 0 <= i <= |line| && CodeUnits(line[..i], source) == p.character
        ensures Locate(line, p.character, source) == At(i)
      {
        LocateFinds(line, i, source);
      }
      assert line[..|line|] == line;
      forall i | 0 <= i <= |line|
        ensures CodeUnits(line[..i], source) <= CodeUnits(line, source)
      {
        if i < |line| {
          UnitsMonotone(line, i, |line|, source);
        }
      }
    }
  }

  lemma {:induction false} LineMustExist(text: Text, p: Position, a: PositionEncoding, b: PositionEncoding)
    ensures ConvertPosition(text, p, a, b).Ok? ==> p.line < LineCount(text)
  {
    hide Encode, SpansFrom, CodeUnits, Locate, ByteOffsetAt;
  }

  /** Converting there and back is the identity, and converting in two hops is converting in one. */
  lemma {:induction false} RoundTrip(text: Text, p: Position, a: PositionEncoding, b: PositionEncoding,
                                     c: PositionEncoding)
    requires ConvertPosition(text, p, a, b).Ok?
    ensures var q := ConvertPosition(text, p, a, b).value;
            && ConvertPosition(text, q, b, a) == Ok(p)
            && ConvertPosition(text, q, b, c) == ConvertPosition(text, p, a, c)
            && LspIndex(text, q, b) == LspIndex(text, p, a)
  {
    hide Encode, SpansFrom, CodeUnits, Locate, ConvertPosition;
    var q := ConvertPosition(text, p, a, b).value;
    LineMustExist(text, p, a, b);
    ConvertMeaning(text, p, a, b);
    var line := Line(text, p.line);
    var i := Locate(line, p.character, a).index;
    LocateFinds(line, i, b);
    ConvertMeaning(text, p, a, c);
    ConvertMeaning(text, q, b, a);
    ConvertMeaning(text, q, b, c);
  }

  /** Where a valid position lies: at a boundary of its line. */
  lemma {:induction false} IndexInLine(text: Text, p: Position, encoding: PositionEncoding)
    requires LspIndex(text, p, encoding).Some?
    ensures p.line < LineCount(text)
    ensures var span, line := Spans(text)[p.line], Line(text, p.line);
            var i := LspIndex(text, p, encoding).value - span.start;
            && 0 <= i <= |line| == span.end - span.start && CodeUnits(line[..i], encoding) == p.character
            && span.end <= |text|
  {
    hide CodeUnits, Locate, SpansFrom;
    LocateMeaning(Line(text, p.line), p.character, encoding);
  }

  /** The order of valid positions is the order of the characters they point at. */
  lemma {:induction false} OrderIsIndexOrder(text: Text, p: Position, q: Position, encoding: PositionEncoding)
    requires LspIndex(text, p, encoding).Some? && LspIndex(text, q, encoding).Some?
    ensures Before(p, q) <==> LspIndex(text, p, encoding).value < LspIndex(text, q, encoding).value
    ensures LspIndex(text, p, encoding).value <= |text|
  {
    hide CodeUnits, Locate, Spans, LspIndex, Line;
    IndexInLine(text, p, encoding);
    IndexInLine(text, q, encoding);
    var i, j := LspIndex(text, p, encoding).value, LspIndex(text, q, encoding).value;
    if p.line < q.line {
      LinesOrdered(text, p.line, q.line);
    } else if q.line < p.line {
      LinesOrdered(text, q.line, p.line);
    } else {
      var line, start := Line(text, p.line), Spans(text)[p.line].start;
      if i < j {
        UnitsMonotone(line, i - start, j - start, encoding);
      } else if j < i {
        UnitsMonotone(line, j - start, i - start, encoding);
      }
    }
  }

  lemma {:induction false} ConvertKeepsIndex(text: Text, p: Position, a: PositionEncoding, b: PositionEncoding)
    requires ConvertPosition(text, p, a, b).Ok?
    ensures LspIndex(text, p, a).Some?
    ensures LspIndex(text, ConvertPosition(text, p, a, b).value, b) == LspIndex(text, p, a)
  {
    RoundTrip(text, p, a, b, b);
    ConvertMeaning(text, p, a, b);
  }

  /** Conversion preserves the order of positions, so a converted range is never reversed. */
  lemma {:induction false} OrderPreserved(text: Text, p: Position, q: Position, a: PositionEncoding,
                                          b: PositionEncoding)
    requires ConvertPosition(text, p, a, b).Ok? && ConvertPosition(text, q, a, b).Ok?
    ensures Before(p, q) <==>
            Before(ConvertPosition(text, p, a, b).value, ConvertPosition(text, q, a, b).value)
  {
    ConvertKeepsIndex(text, p, a, b);
    ConvertKeepsIndex(text, q, a, b);
    OrderIsIndexOrder(text, p, q, a);
    OrderIsIndexOrder(text, ConvertPosition(text, p, a, b).value, ConvertPosition(text, q, a, b).value, b);
  }

  /** A range converts and converts back exactly when it is not reversed and both of its ends convert. */
  lemma {:induction false} RangeRoundTrip(text: Text, range: Range, a: PositionEncoding, b: PositionEncoding)
    ensures var r := ConvertRange(text, range, a, b);
            && (r.Ok? <==> !Before(range.end, range.start) &&
                           ConvertPosition(text, range.start, a, b).Ok? && ConvertPosition(text, range.end, a, b).Ok?)
            && (r.Ok? ==> !Before(r.value.end, r.value.start) && ConvertRange(text, r.value, b, a) == Ok(range))
            && (r.Err? ==>
                  r.error ==
                  if Before(range.end, range.start) then ReversedRange(range)
                  else if ConvertPosition(text, range.start, a, b).Err? then ConvertPosition(text, range.start, a, b).error
                  else ConvertPosition(text, range.end, a, b).error)
  {
    if ConvertRange(text, range, a, b).Ok? {
      OrderPreserved(text, range.end, range.start, a, b);
      RoundTrip(text, range.start, a, b, a);
      RoundTrip(text, range.end, a, b, a);
    }
  }

  /** The end position is valid and points just past the last character, in every encoding, as long as it fits `u32`. */
  lemma {:induction false} EndPositionMeaning(text: Text, encoding: PositionEncoding)
    ensures EndPosition(text, encoding).Ok? <==>
            LineCount(text) <= 0x1_0000_0000 && CodeUnits(Line(text, LineCount(text) - 1), encoding) < 0x1_0000_0000
    ensures EndPosition(text, encoding).Ok? ==>
              LspIndex(text, EndPosition(text, encoding).value, encoding) == Some(|text|)
  {
    hide Encode, SpansFrom, CodeUnits, Locate;
    var last := LineCount(text) - 1;
    var line := Line(text, last);
    LinesPartition(text, last);
    LocateFinds(line, |line|, encoding);
    assert line[..|line|] == line;
  }
}
