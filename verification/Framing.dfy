/**
  src/lsp.rs: message framing (LSP 3.17, "Base Protocol", "Header Part").  The writer puts
  a Content-Length header before each body; the reader takes headers line by line and then
  exactly that many bytes, whatever they are.
 */
module Framing {
  import opened Wrappers
  import opened Utf8
  import opened Lines

  const USIZE_MAX := 0xFFFF_FFFF_FFFF_FFFF

  const CONTENT_LENGTH: Text := [
    'C' as int, 'o' as int, 'n' as int, 't' as int, 'e' as int, 'n' as int, 't' as int, '-' as int,
    'L' as int, 'e' as int, 'n' as int, 'g' as int, 't' as int, 'h' as int, ':' as int
  ]
  const SPACE := ' ' as int
  const ZERO := '0' as int
  const PLUS := '+' as int

  // ----- decimal numbers -----

  /** How a length is printed. */
  function Digits(n: nat): (r: Text)
    ensures r != []
    ensures forall i :: 0 <= i < |r| ==> ZERO <= r[i] < ZERO + 10
  {
    if n < 10 then [ZERO + n] else Digits(n / 10) + [ZERO + n % 10]
  }

  /** One step of `usize::from_str`; `None` stands for an invalid digit or overflow. */
  function ParseDigit(value: nat, c: int): Option<nat> {
    if ZERO <= c < ZERO + 10 && value * 10 + (c - ZERO) <= USIZE_MAX then Some(value * 10 + (c - ZERO)) else None
  }

  function ParseDigits(s: Text, value: nat): Option<nat> {
    if s == [] then Some(value)
    else
      match ParseDigit(value, s[0])
      case None => None
      case Some(next) => ParseDigits(s[1..], next)
  }

  /** `str::parse::<usize>` */
  function ParseUsize(s: Text): Option<nat> {
    var digits := if s != [] && s[0] == PLUS then s[1..] else s;
    if digits == [] then None else ParseDigits(digits, 0)
  }

  lemma {:induction false} ParseAppend(s: Text, c: Scalar, value: nat)
    ensures ParseDigits(s + [c], value) ==
            match ParseDigits(s, value) { case None => None case Some(v) => ParseDigit(v, c) }
  {
    if s == [] {
      assert [c][1..] == [];
    } else {
      assert (s + [c])[1..] == s[1..] + [c];
      match ParseDigit(value, s[0])
      case None =>
      case Some(next) => ParseAppend(s[1..], c, next);
    }
  }

  lemma {:induction false} ParsePrinted(n: nat)
    requires n <= USIZE_MAX
    ensures ParseDigits(Digits(n), 0) == Some(n)
  {
    if n < 10 {
      assert Digits(n)[1..] == [];
    } else {
      ParsePrinted(n / 10);
      ParseAppend(Digits(n / 10), ZERO + n % 10, 0);
    }
  }

  predicate IsDecimal(s: Text) {
    forall i :: 0 <= i < |s| ==> 48 <= s[i] <= 57
  }

  /** The number that decimal digits denote. */
  function DecimalValue(s: Text): nat
    requires IsDecimal(s)
  {
    if s == [] then 0 else DecimalValue(s[..|s| - 1]) * 10 + (s[|s| - 1] - 48)
  }

  /** A length is printed as the decimal digits that denote it, with no leading zero. */
  lemma {:induction false} DigitsAreDecimal(n: nat)
    ensures IsDecimal(Digits(n)) && DecimalValue(Digits(n)) == n && (|Digits(n)| > 1 ==> Digits(n)[0] != 48)
  {
    if n >= 10 {
      DigitsAreDecimal(n / 10);
      assert Digits(n)[..|Digits(n)| - 1] == Digits(n / 10);
    }
  }

  lemma {:induction false} DigitsParsed(s: Text)
    ensures ParseDigits(s, 0) ==
            if IsDecimal(s) && DecimalValue(s) <= 0xFFFF_FFFF_FFFF_FFFF then Some(DecimalValue(s)) else None
    decreases |s|
  {
    if s != [] {
      var front := s[..|s| - 1];
      DigitsParsed(front);
      assert s == front + [s[|s| - 1]];
      ParseAppend(front, s[|s| - 1], 0);
    }
  }

  /** What is read as a length: decimal digits, maybe behind a plus sign, of a number of 64 bits, and nothing else. */
  lemma {:induction false} ParsedExactly(s: Text)
    ensures var digits := if s != [] && s[0] == 43 then s[1..] else s;
            ParseUsize(s) ==
            if digits != [] && IsDecimal(digits) && DecimalValue(digits) <= 18446744073709551615 then
              Some(DecimalValue(digits))
            else
              None
  {
    DigitsParsed(if s != [] && s[0] == 43 then s[1..] else s);
  }

  // ----- header lines -----

  /** Unicode `White_Space`, as `str::trim` uses it. */
  predicate IsWhitespace(c: int) {
    0x9 <= c <= 0xD || c == 0x20 || c == 0x85 || c == 0xA0 || c == 0x1680 || 0x2000 <= c <= 0x200A
    || c == 0x2028 || c == 0x2029 || c == 0x202F || c == 0x205F || c == 0x3000
  }

  function TrimStart(s: Text): Text {
    if s != [] && IsWhitespace(s[0]) then TrimStart(s[1..]) else s
  }

  function TrimEnd(s: Text): Text {
    if s != [] && IsWhitespace(s[|s| - 1]) then TrimEnd(s[..|s| - 1]) else s
  }

  function Trim(s: Text): Text {
    TrimEnd(TrimStart(s))
  }

  /** `trim_end_matches(['\r', '\n'])` */
  function TrimLineEnd(s: Text): Text {
    if s != [] && IsBreak(s[|s| - 1]) then TrimLineEnd(s[..|s| - 1]) else s
  }

  datatype Header = Blank | Length(value: Option<nat>) | Other

  /** What one header line says; `Length(None)` is a Content-Length that cannot be read. */
  function ReadHeader(line: Text): Header {
    var header := TrimLineEnd(line);
    if header == [] then Blank
    else if CONTENT_LENGTH <= header then Length(ParseUsize(Trim(header[|CONTENT_LENGTH|..])))
    else Other
  }

  // ----- reading -----

  datatype ReadError =
    | Io
    | MissingContentLength
    | InvalidContentLength
    | ResponseTooLarge(responseBytes: nat, maxResponseBytes: nat)

  /** The length of the first line of `input`, its LF included, or of all of it when there is no LF. */
  function LineLength(input: Bytes): (n: nat)
    ensures n <= |input|
    ensures input != [] ==> n > 0
  {
    if input == [] then 0 else if input[0] == LF then 1 else 1 + LineLength(input[1..])
  }

  datatype Read = Read(result: Result<Option<Bytes>, ReadError>, rest: Bytes)

  function ReadBody(input: Bytes, contentLength: Option<nat>, max: nat): Read {
    if contentLength.None? then
      Read(Err(MissingContentLength), input)
    else if contentLength.value > max then
      Read(Err(ResponseTooLarge(contentLength.value, max)), input)
    else if |input| < contentLength.value then
      Read(Err(Io), [])
    else
      Read(Ok(Some(input[..contentLength.value])), input[contentLength.value..])
  }

  /** What reading one message returns and leaves, once the headers seen so far gave `contentLength`. */
  function ReadFrom(input: Bytes, contentLength: Option<nat>, max: nat): (r: Read)
    ensures input != [] ==> |r.rest| < |input|
  {
    if input == [] then
      Read(Ok(None), [])
    else
      var n := LineLength(input);
      var rest := input[n..];
      match Decode(input[..n])
      case None => Read(Err(Io), rest)
      case Some(line) =>
        match ReadHeader(line)
        case Blank => ReadBody(rest, contentLength, max)
        case Length(None) => Read(Err(InvalidContentLength), rest)
        case Length(Some(length)) => ReadFrom(rest, Some(length), max)
        case Other => ReadFrom(rest, contentLength, max)
  }

  /** A buffered reader: what has not been read yet. */
  class BufReader {
    var data: Bytes

    constructor (data: Bytes)
      ensures this.data == data
    {
      this.data := data;
    }

    /** `read_line`: `None` when the line is not UTF-8. */
    method ReadLine() returns (bytes: nat, line: Option<Text>)
      modifies this
      ensures bytes == LineLength(old(data)) && data == old(data)[bytes..]
      ensures line == Decode(old(data)[..bytes])
    {
      bytes := 0;
      while bytes < |data| && (bytes == 0 || data[bytes - 1] != LF)
        invariant bytes <= |data|
        invariant LineLength(data) ==
                  if bytes > 0 && data[bytes - 1] == LF then bytes else bytes + LineLength(data[bytes..])
        decreases |data| - bytes
      {
        assert data[bytes..][1..] == data[bytes + 1..];
        bytes := bytes + 1;
      }
      line := Decode(data[..bytes]);
      data := data[bytes..];
    }

    /** `read_exact`; a stream that ends too early is used up. */
    method ReadExact(n: nat) returns (body: Option<Bytes>)
      modifies this
      ensures |old(data)| < n ==> body == None && data == []
      ensures |old(data)| >= n ==> body == Some(old(data)[..n]) && data == old(data)[n..]
    {
      if |data| < n {
        data := [];
        body := None;
      } else {
        body := Some(data[..n]);
        data := data[n..];
      }
    }
  }

  /** `read_lsp_message`, up to the decoding of the body */
  method ReadLspMessage(reader: BufReader, max: nat) returns (r: Result<Option<Bytes>, ReadError>)
    modifies reader
    ensures Read(r, reader.data) == ReadFrom(old(reader.data), None, max)
  {
    hide Decode, LineLength, TrimLineEnd, Trim, ParseUsize;
    var contentLength: Option<nat> := None;
    while true
      invariant ReadFrom(reader.data, contentLength, max) == ReadFrom(old(reader.data), None, max)
      decreases |reader.data|
    {
      var bytes, line := reader.ReadLine();
      if bytes == 0 {
        return Ok(None);
      }
      if line.None? {
        return Err(Io);
      }
      var header := TrimLineEnd(line.value);
      if header == [] {
        break;
      }
      if CONTENT_LENGTH <= header {
        var value := ParseUsize(Trim(header[|CONTENT_LENGTH|..]));
        if value.None? {
          return Err(InvalidContentLength);
        }
        contentLength := value;
      }
    }
    if contentLength.None? {
      return Err(MissingContentLength);
    }
    if contentLength.value > max {
      return Err(ResponseTooLarge(contentLength.value, max));
    }
    var body := reader.ReadExact(contentLength.value);
    if body.None? {
      return Err(Io);
    }
    r := Ok(body);
  }

  /** The bodies that `reader_loop` receives one after another, and what ends the loop. */
  function ReadAll(input: Bytes, max: nat): (seq<Bytes>, Option<ReadError>)
    decreases |input|
  {
    if input == [] then ([], None)
    else
      var read := ReadFrom(input, None, max);
      match read.result
      case Err(error) => ([], Some(error))
      case Ok(None) => ([], None)
      case Ok(Some(body)) =>
        var (bodies, end) := ReadAll(read.rest, max);
        ([body] + bodies, end)
  }

  // ----- writing -----

  function HeaderLine(length: nat): Text {
    CONTENT_LENGTH + [SPACE] + Digits(length) + [CR, LF]
  }

  /** What `writer_loop` writes for one body. */
  function Frame(body: Bytes): Bytes {
    Encode(HeaderLine(|body|) + [CR, LF]) + body
  }

  function Frames(bodies: seq<Bytes>): Bytes {
    if bodies == [] then [] else Frames(bodies[..|bodies| - 1]) + Frame(bodies[|bodies| - 1])
  }

  /** `writer_loop`, as long as the pipe takes what is written */
  method WriterLoop(queue: seq<Bytes>) returns (output: Bytes)
    ensures output == Frames(queue)
  {
    output := [];
    for k := 0 to |queue|
      invariant output == Frames(queue[..k])
    {
      var header := Encode(CONTENT_LENGTH + [SPACE] + Digits(|queue[k]|) + [CR, LF] + [CR, LF]);
      ghost var before := output;
      output := output + header;
      output := output + queue[k];
      assert output == before + (header + queue[k]);
      assert queue[..k + 1][..k] == queue[..k];
    }
    assert queue[..|queue|] == queue;
  }

  // ----- lines -----

  lemma {:induction false} EncodeAscii(t: Text)
    requires forall i :: 0 <= i < |t| ==> t[i] < 0x80
    ensures Encode(t) == t
  {
    if t != [] {
      EncodeAscii(t[1..]);
    }
  }

  lemma {:induction false} LineLengthOf(line: Bytes, rest: Bytes)
    requires line != [] && line[|line| - 1] == LF
    requires forall i :: 0 <= i < |line| - 1 ==> line[i] != LF
    ensures LineLength(line + rest) == |line|
  {
    if |line| > 1 {
      assert (line + rest)[1..] == line[1..] + rest;
      LineLengthOf(line[1..], rest);
    }
  }

  lemma {:induction false} TrimBreaks(core: Text, breaks: Text)
    requires core == [] || !IsBreak(core[|core| - 1])
    requires forall i :: 0 <= i < |breaks| ==> IsBreak(breaks[i])
    ensures TrimLineEnd(core + breaks) == core
  {
    if breaks == [] {
      assert core + breaks == core;
    } else {
      var n := |breaks| - 1;
      assert (core + breaks)[..|core + breaks| - 1] == core + breaks[..n];
      TrimBreaks(core, breaks[..n]);
    }
  }

  lemma {:induction false} BlankLineRead()
    ensures ReadHeader([CR, LF]) == Blank
  {
    TrimBreaks([], [CR, LF]);
    assert [] + [CR, LF] == [CR, LF];
  }

  lemma {:induction false} HeaderLineIsAscii(length: nat)
    ensures var line := HeaderLine(length);
            && line != [] && line[|line| - 1] == LF
            && forall i :: 0 <= i < |line| - 1 ==> line[i] != LF && line[i] < 0x80
  {
  }

  lemma {:induction false} EndOfHeaders(input: Bytes, line: Text, rest: Bytes, length: Option<nat>, max: nat)
    requires input != [] && Decode(input[..LineLength(input)]) == Some(line) && input[LineLength(input)..] == rest
    requires ReadHeader(line) == Blank
    ensures ReadFrom(input, length, max) == ReadBody(rest, length, max)
  {
  }

  // ----- the header part in literal terms -----

  function Chars(s: string): (t: Text)
    requires forall k :: 0 <= k < |s| ==> s[k] < 0x80 as char
    ensures |t| == |s| && forall k :: 0 <= k < |s| ==> t[k] == s[k] as int
  {
    seq(|s|, k requires 0 <= k < |s| => s[k] as int)
  }

  /** A frame is `Content-Length: `, the decimal length, a blank line, and the body. */
  lemma {:induction false} FrameIsLspMessage(body: Bytes)
    ensures Frame(body) == Chars("Content-Length: ") + Digits(|body|) + Chars("\r\n\r\n") + body
  {
    HeaderInChars(Digits(|body|));
    HeaderLineIsAscii(|body|);
    EncodeAscii(HeaderLine(|body|) + [CR, LF]);
  }

  lemma {:induction false} HeaderInChars(digits: Text)
    ensures Chars("Content-Length: ") + digits + Chars("\r\n\r\n") ==
            CONTENT_LENGTH + [SPACE] + digits + [CR, LF] + [CR, LF]
  {
    HeaderName();
    assert Chars("Content-Length: ") == CONTENT_LENGTH + [SPACE];
    assert Chars("\r\n\r\n") == [CR, LF] + [CR, LF];
  }

  lemma {:induction false} HeaderName()
    ensures Chars("Content-Length:") == CONTENT_LENGTH
  {
  }

  /** One line, ended by its only LF. */
  predicate IsLine(line: Text) {
    line != [] && line[|line| - 1] == 10 && forall i :: 0 <= i < |line| - 1 ==> line[i] != 10
  }

  /** A line that holds something besides line-ending characters. */
  ghost predicate IsHeaderLine(line: Text) {
    IsLine(line) && exists i :: 0 <= i < |line| && line[i] != 10 && line[i] != 13
  }

  ghost predicate SaysContentLength(line: Text) {
    Chars("Content-Length:") <= line
  }

  lemma {:induction false} EncodedLine(line: Text)
    requires IsLine(line)
    ensures var b := Encode(line);
            b != [] && b[|b| - 1] == 10 && forall i :: 0 <= i < |b| - 1 ==> b[i] != 10
  {
    if |line| == 1 {
      EncodeOne(line[0]);
      assert line == [line[0]];
    } else {
      EncodedLine(line[1..]);
    }
  }

  /** A line of any text is read back as that text. */
  lemma {:induction false} LineRead(line: Text, rest: Bytes)
    requires IsLine(line)
    ensures var input := Encode(line) + rest;
            LineLength(input) == |Encode(line)| && Decode(input[..LineLength(input)]) == Some(line) &&
            input[LineLength(input)..] == rest
  {
    EncodedLine(line);
    LineLengthOf(Encode(line), rest);
    DecodeInvertsEncode(line);
    assert (Encode(line) + rest)[..|Encode(line)|] == Encode(line);
    assert (Encode(line) + rest)[|Encode(line)|..] == rest;
  }

  lemma {:induction false} TrimmedLine(s: Text) returns (k: nat)
    ensures k <= |s| && TrimLineEnd(s) == s[..k] && forall i :: k <= i < |s| ==> s[i] == 10 || s[i] == 13
    ensures k > 0 ==> s[k - 1] != 10 && s[k - 1] != 13
  {
    if s != [] && IsBreak(s[|s| - 1]) {
      k := TrimmedLine(s[..|s| - 1]);
      assert s[..|s| - 1][..k] == s[..k];
    } else {
      k := |s|;
      assert s[..k] == s;
    }
  }

  lemma {:induction false} ReadOther(line: Text)
    requires IsHeaderLine(line) && !SaysContentLength(line)
    ensures ReadHeader(line) == Other
  {
    var k := TrimmedLine(line);
    HeaderName();
  }

  /** Around the number of a Content-Length, spaces and tabs mean nothing. */
  ghost predicate Padding(s: Text) {
    forall i :: 0 <= i < |s| ==> s[i] == 32 || s[i] == 9
  }

  function LengthLine(pad: Text, value: Text, pad': Text): Text {
    Chars("Content-Length:") + pad + value + pad' + Chars("\r\n")
  }

  lemma {:induction false} TrimPadding(pad: Text, value: Text, pad': Text)
    requires Padding(pad) && Padding(pad') && value != [] && !IsWhitespace(value[0]) && !IsWhitespace(value[|value| - 1])
    ensures Trim(pad + value + pad') == value
  {
    TrimFront(pad, value + pad');
    assert pad + value + pad' == pad + (value + pad');
    TrimBack(value, pad');
  }

  lemma {:induction false} TrimFront(pad: Text, rest: Text)
    requires Padding(pad) && rest != [] && !IsWhitespace(rest[0])
    ensures TrimStart(pad + rest) == rest
  {
    if pad == [] {
      assert pad + rest == rest;
    } else {
      assert (pad + rest)[1..] == pad[1..] + rest;
      TrimFront(pad[1..], rest);
    }
  }

  lemma {:induction false} TrimBack(rest: Text, pad: Text)
    requires Padding(pad) && rest != [] && !IsWhitespace(rest[|rest| - 1])
    ensures TrimEnd(rest + pad) == rest
    decreases |pad|
  {
    if pad == [] {
      assert rest + pad == rest;
    } else {
      var n := |pad| - 1;
      assert (rest + pad)[..|rest + pad| - 1] == rest + pad[..n];
      TrimBack(rest, pad[..n]);
    }
  }

  lemma {:induction false} LengthLineRead(pad: Text, value: Text, pad': Text)
    requires Padding(pad) && Padding(pad') && value != [] && !IsWhitespace(value[0]) && !IsWhitespace(value[|value| - 1])
    ensures ReadHeader(LengthLine(pad, value, pad')) == Length(ParseUsize(value))
  {
    hide Trim, ParseUsize, IsWhitespace;
    var header := CONTENT_LENGTH + (pad + value + pad');
    assert header[|header| - 1] == if pad' != [] then pad'[|pad'| - 1] else value[|value| - 1];
    NotBreak(value[|value| - 1]);
    TrimBreaks(header, [CR, LF]);
    assert LengthLine(pad, value, pad') == header + [CR, LF];
    assert header[|CONTENT_LENGTH|..] == pad + value + pad';
    TrimPadding(pad, value, pad');
  }

  lemma {:induction false} NotBreak(c: Scalar)
    requires !IsWhitespace(c)
    ensures !IsBreak(c) && c != 10
  {
  }

  function Join(lines: seq<Text>): Text {
    if lines == [] then [] else lines[0] + Join(lines[1..])
  }

  ghost predicate OtherHeaders(lines: seq<Text>) {
    forall k :: 0 <= k < |lines| ==> IsHeaderLine(lines[k]) && !SaysContentLength(lines[k])
  }

  lemma {:induction false} SkipOne(line: Text, tail: Bytes, length: Option<nat>, max: nat)
    requires IsHeaderLine(line) && !SaysContentLength(line)
    ensures ReadFrom(Encode(line) + tail, length, max) == ReadFrom(tail, length, max)
  {
    LineRead(line, tail);
    ReadOther(line);
  }

  /** Header lines other than Content-Length are read and mean nothing. */
  lemma {:induction false} OthersSkipped(lines: seq<Text>, tail: Bytes, length: Option<nat>, max: nat)
    requires OtherHeaders(lines)
    ensures ReadFrom(Encode(Join(lines)) + tail, length, max) == ReadFrom(tail, length, max)
  {
    hide ReadFrom, Encode, SaysContentLength, IsHeaderLine;
    if lines == [] {
      EncodeNothing();
      assert [] + tail == tail;
    } else {
      EncodeConcat(lines[0], Join(lines[1..]));
      assert Encode(Join(lines)) + tail == Encode(lines[0]) + (Encode(Join(lines[1..])) + tail);
      SkipOne(lines[0], Encode(Join(lines[1..])) + tail, length, max);
      OthersSkipped(lines[1..], tail, length, max);
    }
  }

  lemma {:induction false} EncodeNothing()
    ensures Encode([]) == []
  {
  }

  lemma {:induction false} BlankEndsHeaders(tail: Bytes, length: Option<nat>, max: nat)
    ensures ReadFrom(Encode([CR, LF]) + tail, length, max) == ReadBody(tail, length, max)
  {
    hide Encode, Decode, ReadHeader, LineLength, ReadBody;
    LineRead([CR, LF], tail);
    BlankLineRead();
    EndOfHeaders(Encode([CR, LF]) + tail, [CR, LF], tail, length, max);
  }

  lemma {:induction false} LengthIsTaken(pad: Text, value: Text, pad': Text, tail: Bytes, before: Option<nat>, max: nat)
    requires Padding(pad) && Padding(pad') && value != [] && forall i :: 0 <= i < |value| ==> !IsWhitespace(value[i])
    ensures ReadFrom(Encode(LengthLine(pad, value, pad')) + tail, before, max) ==
            match ParseUsize(value)
            case None => Read(Err(InvalidContentLength), tail)
            case Some(length) => ReadFrom(tail, Some(length), max)
  {
    var line := LengthLine(pad, value, pad');
    LengthLineRead(pad, value, pad');
    LengthLineIsLine(pad, value, pad');
    LineRead(line, tail);
  }

  lemma {:induction false} LengthLineIsLine(pad: Text, value: Text, pad': Text)
    requires Padding(pad) && Padding(pad') && forall i :: 0 <= i < |value| ==> !IsWhitespace(value[i])
    ensures IsLine(LengthLine(pad, value, pad'))
  {
    forall i | 0 <= i < |value|
      ensures value[i] != 10
    {
      NotBreak(value[i]);
    }
  }

  /** The header part of one message: its length anywhere among other headers, and a blank line. */
  function Headers(before: seq<Text>, pad: Text, value: Text, pad': Text, after: seq<Text>): Bytes {
    Encode(Join(before)) + (Encode(LengthLine(pad, value, pad')) + (Encode(Join(after)) + Encode([CR, LF])))
  }

  /**
    One message is read whatever other headers it has, and wherever its length stands among
    them: what follows the blank line is the body, if the value is the decimal number of its bytes.
   */
  lemma {:induction false} MessageRead(before: seq<Text>, pad: Text, value: Text, pad': Text, after: seq<Text>,
                                       body: Bytes, rest: Bytes, max: nat)
    requires OtherHeaders(before) && OtherHeaders(after) && Padding(pad) && Padding(pad')
    requires value != [] && IsDecimal(value) && DecimalValue(value) == |body| <= max <= 18446744073709551615
    ensures ReadFrom(Headers(before, pad, value, pad', after) + (body + rest), None, max) == Read(Ok(Some(body)), rest)
  {
    hide ReadFrom, Encode, OtherHeaders, Padding, IsWhitespace, ParseUsize, DecimalValue, Join;
    ParsedExactly(value);
    DigitsNotWhitespace(value);
    var content, ending := body + rest, Encode([CR, LF]) + (body + rest);
    var tail := Encode(Join(after)) + ending;
    var line := Encode(LengthLine(pad, value, pad'));
    assert Headers(before, pad, value, pad', after) + content == Encode(Join(before)) + (line + tail);
    OthersSkipped(before, line + tail, None, max);
    LengthIsTaken(pad, value, pad', tail, None, max);
    OthersSkipped(after, ending, Some(|body|), max);
    BlankEndsHeaders(content, Some(|body|), max);
    assert content[..|body|] == body && content[|body|..] == rest;
  }

  lemma {:induction false} DigitsNotWhitespace(value: Text)
    requires IsDecimal(value)
    ensures forall i :: 0 <= i < |value| ==> !IsWhitespace(value[i])
    ensures value != [] ==> value[0] != 43
  {
  }

  /** What is refused: headers without a length, a length that is no number, and a stream that ends between messages. */
  lemma {:induction false} HeadersRefused(lines: seq<Text>, pad: Text, value: Text, pad': Text, rest: Bytes, max: nat)
    requires OtherHeaders(lines)
    ensures ReadFrom(Encode(Join(lines)) + (Encode([CR, LF]) + rest), None, max) == Read(Err(MissingContentLength), rest)
    ensures ReadFrom(Encode(Join(lines)), None, max) == Read(Ok(None), [])
    ensures Padding(pad) && Padding(pad') && value != [] && (forall i :: 0 <= i < |value| ==> !IsWhitespace(value[i])) &&
            value[0] != 43 && !IsDecimal(value) ==>
              ReadFrom(Encode(Join(lines)) + (Encode(LengthLine(pad, value, pad')) + rest), None, max) ==
              Read(Err(InvalidContentLength), rest)
  {
    hide ReadFrom, Encode, OtherHeaders, Padding, IsWhitespace, ParseUsize, DecimalValue, Join, IsDecimal;
    OthersSkipped(lines, Encode([CR, LF]) + rest, None, max);
    BlankEndsHeaders(rest, None, max);
    OthersSkipped(lines, [], None, max);
    assert Encode(Join(lines)) + [] == Encode(Join(lines));
    NothingToRead(max);
    if Padding(pad) && Padding(pad') && value != [] && (forall i :: 0 <= i < |value| ==> !IsWhitespace(value[i])) &&
       value[0] != 43 && !IsDecimal(value) {
      ParsedExactly(value);
      OthersSkipped(lines, Encode(LengthLine(pad, value, pad')) + rest, None, max);
      LengthIsTaken(pad, value, pad', rest, None, max);
    }
  }

  lemma {:induction false} NothingToRead(max: nat)
    ensures ReadFrom([], None, max) == Read(Ok(None), [])
  {
  }

  /** A stream that ends inside a body, or a header line that is no text, ends the reading with an error. */
  lemma {:induction false} BrokenStream(before: seq<Text>, pad: Text, value: Text, pad': Text, after: seq<Text>,
                                        part: Bytes, line: Bytes, rest: Bytes, max: nat)
    requires OtherHeaders(before) && OtherHeaders(after) && Padding(pad) && Padding(pad')
    requires value != [] && IsDecimal(value) && |part| < DecimalValue(value) <= max <= 18446744073709551615
    requires line != [] && Decode(line).None? && line[|line| - 1] == 10 && forall i :: 0 <= i < |line| - 1 ==> line[i] != 10
    ensures ReadFrom(Headers(before, pad, value, pad', after) + part, None, max) == Read(Err(Io), [])
    ensures ReadFrom(line + rest, None, max) == Read(Err(Io), rest)
  {
    hide Encode, OtherHeaders, Padding, IsWhitespace, ParseUsize, DecimalValue, Join;
    LineLengthOf(line, rest);
    assert (line + rest)[..|line|] == line && (line + rest)[|line|..] == rest;
    assert ReadFrom(line + rest, None, max) == Read(Err(Io), rest);
    hide ReadFrom;
    ParsedExactly(value);
    DigitsNotWhitespace(value);
    var length, ending := DecimalValue(value), Encode([CR, LF]) + part;
    var tail := Encode(Join(after)) + ending;
    var header := Encode(LengthLine(pad, value, pad'));
    assert Headers(before, pad, value, pad', after) + part == Encode(Join(before)) + (header + tail);
    OthersSkipped(before, header + tail, None, max);
    LengthIsTaken(pad, value, pad', tail, None, max);
    OthersSkipped(after, ending, Some(length), max);
    BlankEndsHeaders(part, Some(length), max);
  }

  // ----- round trip -----

  /** The headers of a frame are read, and what follows them is taken as its body. */
  lemma {:induction false} FrameHeaderRead(body: Bytes, rest: Bytes, max: nat)
    requires |body| <= USIZE_MAX
    ensures ReadFrom(Frame(body) + rest, None, max) == ReadBody(body + rest, Some(|body|), max)
  {
    var line, digits := LengthLine([SPACE], Digits(|body|), []), Digits(|body|);
    DigitsAreDecimal(|body|);
    ParsedExactly(digits);
    DigitsNotWhitespace(digits);
    HeaderName();
    assert line == HeaderLine(|body|);
    EncodeConcat(line, [CR, LF]);
    hide Encode, ReadFrom, ReadBody, LengthLine, HeaderLine, ParseUsize, DecimalValue, IsWhitespace;
    assert Frame(body) + rest == Encode(line) + (Encode([CR, LF]) + (body + rest));
    LengthIsTaken([SPACE], digits, [], Encode([CR, LF]) + (body + rest), None, max);
    BlankEndsHeaders(body + rest, Some(|body|), max);
  }

  lemma {:induction false} FrameRead(body: Bytes, rest: Bytes, max: nat)
    requires |body| <= max && max <= USIZE_MAX
    ensures ReadFrom(Frame(body) + rest, None, max) == Read(Ok(Some(body)), rest)
  {
    hide Frame, ReadFrom;
    FrameHeaderRead(body, rest, max);
    assert (body + rest)[..|body|] == body && (body + rest)[|body|..] == rest;
  }

  lemma {:induction false} FramesConcat(a: seq<Bytes>, b: seq<Bytes>)
    ensures Frames(a + b) == Frames(a) + Frames(b)
  {
    hide Frame;
    if b == [] {
      assert a + b == a;
    } else {
      var n := |b| - 1;
      assert (a + b)[..|a + b| - 1] == a + b[..n];
      FramesConcat(a, b[..n]);
    }
  }

  /** Whatever bodies are written, any bytes in them, exactly those bodies are read, and then the end of the stream. */
  lemma {:induction false} FramesRoundTrip(bodies: seq<Bytes>, max: nat)
    requires max <= USIZE_MAX
    requires forall k :: 0 <= k < |bodies| ==> |bodies[k]| <= max
    ensures ReadAll(Frames(bodies), max) == (bodies, None)
  {
    hide Frame, ReadFrom;
    if bodies != [] {
      var head, tail := bodies[0], bodies[1..];
      assert bodies == [head] + tail;
      FramesConcat([head], tail);
      assert Frames([head][..0]) == [];
      assert Frames([head]) == Frame(head);
      FrameRead(head, Frames(tail), max);
      FrameNotEmpty(head);
      FramesRoundTrip(tail, max);
    }
  }

  lemma {:induction false} FrameNotEmpty(body: Bytes)
    ensures Frame(body) != []
  {
  }

  /** The first body that is too long stops the reader before any of its bytes are taken. */
  lemma {:induction false} OversizedStopsReader(bodies: seq<Bytes>, big: Bytes, rest: Bytes, max: nat)
    requires max < |big| <= USIZE_MAX
    requires forall k :: 0 <= k < |bodies| ==> |bodies[k]| <= max
    ensures ReadAll(Frames(bodies) + (Frame(big) + rest), max) == (bodies, Some(ResponseTooLarge(|big|, max)))
    decreases |bodies|
  {
    hide Frame, ReadFrom;
    var tail := Frame(big) + rest;
    if bodies == [] {
      OversizedRead(big, rest, max);
      FrameNotEmpty(big);
      assert [] + tail == tail;
    } else {
      var head, more := bodies[0], bodies[1..];
      assert bodies == [head] + more;
      FramesConcat([head], more);
      assert Frames([head][..0]) == [];
      assert Frames([head]) == Frame(head);
      assert Frames(bodies) + tail == Frame(head) + (Frames(more) + tail);
      FrameRead(head, Frames(more) + tail, max);
      FrameNotEmpty(head);
      OversizedStopsReader(more, big, rest, max);
    }
  }

  lemma {:induction false} OversizedRead(body: Bytes, rest: Bytes, max: nat)
    requires max < |body| <= USIZE_MAX
    ensures ReadFrom(Frame(body) + rest, None, max) == Read(Err(ResponseTooLarge(|body|, max)), body + rest)
  {
    hide Frame, ReadFrom;
    FrameHeaderRead(body, rest, max);
  }
}
