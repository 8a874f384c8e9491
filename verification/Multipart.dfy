/**
 * Multipart request bodies (`parse_multipart` in crates/bicdb-app-runtime/src/http.rs),
 * against the framing of section 5.1.1 of RFC 2046 and section 4 of RFC 7578.
 *
 * Bytes are characters below 256, and header text is kept as its encoded bytes.
 */
module Multipart {
  import opened Prelude
  import opened Sequences
  import opened Text

  type Bytes = string

  datatype Header = Header(name: Bytes, value: Bytes)

  datatype Part = Part(name: Bytes, filename: Option<Bytes>, headers: seq<Header>, body: Bytes)

  datatype Error = InvalidBoundary | TooManyParts | NoHeaderEnd | HeadersTooLong | NotText | InvalidHeader
                 | NoDisposition | NoName

  const CRLF: Bytes := "\r\n"
  const HEADER_END: Bytes := "\r\n\r\n"
  const MAX_PARTS := 256
  const MAX_HEADER_BYTES := 64 * 1024
  const MAX_NAME_BYTES := 256
  const MAX_BOUNDARY_BYTES := 70

  // ---------------------------------------------------------------- text helpers

  function StripPrefix(s: Bytes, prefix: Bytes): Option<Bytes> {
    if prefix <= s then Some(s[|prefix|..]) else None
  }

  function StripSuffix(s: Bytes, suffix: Bytes): Option<Bytes> {
    if |suffix| <= |s| && s[|s| - |suffix|..] == suffix then Some(s[..|s| - |suffix|]) else None
  }

  function OrElse(option: Option<Bytes>, other: Bytes): Bytes {
    if option.Some? then option.value else other
  }

  // ---------------------------------------------------------------- the boundary

  predicate BoundaryChar(c: char) {
    'a' <= c <= 'z' || 'A' <= c <= 'Z' || '0' <= c <= '9' || c in "'()+_,-./:=?"
  }

  predicate ValidBoundary(boundary: Bytes) {
    0 < |boundary| <= MAX_BOUNDARY_BYTES && forall i :: 0 <= i < |boundary| ==> BoundaryChar(boundary[i])
  }

  /** The first parameter that names a boundary. */
  function BoundaryParameter(parameters: seq<Bytes>): Option<Bytes> {
    if parameters == [] then None
    else
      var stripped := StripPrefix(Trim(parameters[0], IsSpace), "boundary=");
      if stripped.Some? then stripped else BoundaryParameter(parameters[1..])
  }

  function BoundaryOf(contentType: Bytes): Option<Bytes> {
    match BoundaryParameter(Split(contentType, ";"))
    case None => None
    case Some(parameter) =>
      var boundary := Trim(parameter, IsQuote);
      if ValidBoundary(boundary) then Some(boundary) else None
  }

  function Marker(boundary: Bytes): Bytes {
    "--" + boundary
  }

  // ---------------------------------------------------------------- one section

  /** Without its line breaks; a section that lacks the last one falls back to the whole section. */
  function Unwrapped(section: Bytes): Bytes {
    OrElse(StripSuffix(OrElse(StripPrefix(section, CRLF), section), CRLF), section)
  }

  function ParseLine(line: Bytes): Option<Header> {
    match Find(line, ":")
    case None => None
    case Some(i) => Some(Header(Lower(Trim(line[..i], IsSpace)), Trim(line[i + 1..], IsSpace)))
  }

  function ParseLines(lines: seq<Bytes>): Option<seq<Header>> {
    if lines == [] then Some([])
    else
      var header, rest := ParseLine(lines[0]), ParseLines(lines[1..]);
      if header.None? || rest.None? then None else Some([header.value] + rest.value)
  }

  function Lookup(headers: seq<Header>, name: Bytes): Option<Bytes> {
    if headers == [] then None
    else if Lower(headers[0].name) == Lower(name) then Some(headers[0].value)
    else Lookup(headers[1..], name)
  }

  datatype Disposition = Disposition(name: Option<Bytes>, filename: Option<Bytes>)

  /** Reads the parameters of a disposition; a later one replaces an earlier one. */
  function ReadParameters(parameters: seq<Bytes>, so: Disposition): Disposition {
    if parameters == [] then so
    else
      var parameter := Trim(parameters[0], IsSpace);
      var name, filename := StripPrefix(parameter, "name="), StripPrefix(parameter, "filename=");
      var next := if name.Some? then so.(name := Some(Trim(name.value, IsQuote)))
                  else if filename.Some? then so.(filename := Some(Trim(filename.value, IsQuote)))
                  else so;
      ReadParameters(parameters[1..], next)
  }

  predicate ValidName(name: Option<Bytes>) {
    name.Some? && 0 < |name.value| <= MAX_NAME_BYTES
  }

  function ParseSection(section: Bytes, isText: Bytes -> bool): Result<Part, Error> {
    match Find(section, HEADER_END)
    case None => Err(NoHeaderEnd)
    case Some(end) =>
      if end > MAX_HEADER_BYTES then Err(HeadersTooLong)
      else if !isText(section[..end]) then Err(NotText)
      else match ParseLines(Split(section[..end], CRLF))
        case None => Err(InvalidHeader)
        case Some(headers) =>
          match Lookup(headers, "content-disposition")
          case None => Err(NoDisposition)
          case Some(value) =>
            var disposition := ReadParameters(Split(value, ";")[1..], Disposition(None, None));
            if !ValidName(disposition.name) then Err(NoName)
            else Ok(Part(disposition.name.value, disposition.filename, headers, section[end + 4..]))
  }

  // ---------------------------------------------------------------- the whole body

  /** The sections that follow the parts read `so` far. */
  function ParseSections(sections: seq<Bytes>, isText: Bytes -> bool, so: seq<Part>): Result<seq<Part>, Error> {
    if sections == [] || "--" <= sections[0] then Ok(so)
    else
      var section := Unwrapped(sections[0]);
      if section == [] then ParseSections(sections[1..], isText, so)
      else if |so| >= MAX_PARTS then Err(TooManyParts)
      else
        var part := ParseSection(section, isText);
        if part.Err? then Err(part.error) else ParseSections(sections[1..], isText, so + [part.value])
  }

  function Parse(contentType: Bytes, bytes: Bytes, isText: Bytes -> bool): Result<seq<Part>, Error> {
    match BoundaryOf(contentType)
    case None => Err(InvalidBoundary)
    case Some(boundary) => ParseSections(Split(bytes, Marker(boundary))[1..], isText, [])
  }

  method ParseMultipart(contentType: Bytes, bytes: Bytes, isText: Bytes -> bool)
    returns (result: Result<seq<Part>, Error>)
    ensures result == Parse(contentType, bytes, isText)
  {
    var boundary := BoundaryOf(contentType);
    if boundary.None? {
      return Err(InvalidBoundary);
    }
    var pieces := SplitBytes(bytes, Marker(boundary.value));
    ghost var sections := pieces[1..];
    var parts: seq<Part> := [];
    for i := 1 to |pieces|
      invariant ParseSections(sections, isText, []) == ParseSections(pieces[i..], isText, parts)
    {
      assert pieces[i..][1..] == pieces[i + 1..];
      if "--" <= pieces[i] {
        return Ok(parts);
      }
      var section := Unwrapped(pieces[i]);
      if section == [] {
        continue;
      }
      if |parts| >= MAX_PARTS {
        return Err(TooManyParts);
      }
      var part := ParseSection(section, isText);
      if part.Err? {
        return Err(part.error);
      }
      parts := parts + [part.value];
    }
    return Ok(parts);
  }

  // ---------------------------------------------------------------- framing

  function Line(header: Header): Bytes {
    header.name + ": " + header.value
  }

  function Lines(headers: seq<Header>): seq<Bytes> {
    seq(|headers|, i requires 0 <= i < |headers| => Line(headers[i]))
  }

  function Block(part: Part): Bytes {
    if part.headers == [] then [] else Join(Lines(part.headers), CRLF)
  }

  /** A disposition parameter as it is written after a semicolon. */
  function Written(key: Bytes, text: Bytes): Bytes {
    " " + key + "\"" + text + "\""
  }

  function DispositionValue(name: Bytes, filename: Option<Bytes>): Bytes {
    Join(["form-data", Written("name=", name)]
         + if filename.None? then [] else [Written("filename=", filename.value)], ";")
  }

  /** What stands between two markers for one part. */
  function Section(part: Part): Bytes {
    CRLF + Block(part) + HEADER_END + part.body + CRLF
  }

  function Framed(parts: seq<Part>, marker: Bytes, epilogue: Bytes): Bytes {
    if parts == [] then marker + "--" + epilogue
    else marker + Section(parts[0]) + Framed(parts[1..], marker, epilogue)
  }

  predicate Plain(text: Bytes) {
    '\r' !in text && '\n' !in text
  }

  /** A header that survives being written as a line and read back. */
  predicate WellFormedHeader(header: Header) {
    && Plain(header.name) && Plain(header.value) && ':' !in header.name
    && Lower(Trim(header.name, IsSpace)) == header.name && Trim(header.value, IsSpace) == header.value
  }

  predicate Quotable(text: Bytes) {
    ';' !in text && (text != [] ==> text[0] != '"' && text[|text| - 1] != '"')
  }

  ghost predicate WellFormedPart(part: Part, marker: Bytes, isText: Bytes -> bool) {
    && part.headers != []
    && (forall i :: 0 <= i < |part.headers| ==> WellFormedHeader(part.headers[i]))
    && |Block(part)| <= MAX_HEADER_BYTES && isText(Block(part))
    && 0 < |part.name| <= MAX_NAME_BYTES && Quotable(part.name)
    && (part.filename.Some? ==> Quotable(part.filename.value))
    && Lookup(part.headers, "content-disposition") == Some(DispositionValue(part.name, part.filename))
    && Absent(Block(part), marker) && Absent(part.body, marker)
  }

  ghost predicate WellFormed(parts: seq<Part>, marker: Bytes, isText: Bytes -> bool) {
    parts != [] ==> WellFormedPart(parts[0], marker, isText) && WellFormed(parts[1..], marker, isText)
  }

  // ---------------------------------------------------------------- reading a header back

  lemma LineParses(header: Header)
    requires WellFormedHeader(header)
    ensures ParseLine(Line(header)) == Some(header)
  {
    var line, n := Line(header), |header.name|;
    forall i: nat | i < n ensures !OccursAt(line, ":", i) {
      Mismatch(line, ":", i, 0);
    }
    assert OccursAt(line, ":", n);
    assert line[..n] == header.name;
    assert line[n + 1..] == " " + header.value;
    TrimStartSpace(header.value);
  }

  lemma FirstLineParses(line: Bytes, header: Header, rest: seq<Bytes>, headers: seq<Header>)
    requires ParseLine(line) == Some(header) && ParseLines(rest) == Some(headers)
    ensures ParseLines([line] + rest) == Some([header] + headers)
  {
    assert ([line] + rest)[1..] == rest;
  }

  lemma {:induction false} LinesParse(headers: seq<Header>)
    requires forall i :: 0 <= i < |headers| ==> WellFormedHeader(headers[i])
    ensures ParseLines(Lines(headers)) == Some(headers)
  {
    if headers != [] {
      LinesParse(headers[1..]);
      MoreLinesParse(headers);
    }
  }

  lemma MoreLinesParse(headers: seq<Header>)
    requires headers != [] && WellFormedHeader(headers[0])
    requires ParseLines(Lines(headers[1..])) == Some(headers[1..])
    ensures ParseLines(Lines(headers)) == Some(headers)
  {
    var first, rest := headers[0], headers[1..];
    LineParses(first);
    FirstLineParses(Line(first), first, Lines(rest), rest);
    FirstLine(headers);
  }

  lemma FirstLine(headers: seq<Header>)
    requires headers != []
    ensures Lines(headers) == [Line(headers[0])] + Lines(headers[1..])
    ensures headers == [headers[0]] + headers[1..]
  {
  }

  lemma LineIsPlain(header: Header)
    requires WellFormedHeader(header)
    ensures Plain(Line(header)) && Line(header) != []
  {
  }

  lemma BlockSplits(part: Part)
    requires part.headers != [] && forall i :: 0 <= i < |part.headers| ==> WellFormedHeader(part.headers[i])
    ensures Split(Block(part), CRLF) == Lines(part.headers)
  {
    forall i | 0 <= i < |part.headers|
      ensures Absent(Lines(part.headers)[i], CRLF) && Delimits(Lines(part.headers)[i], CRLF)
    {
      LineIsPlain(part.headers[i]);
      DelimitsByStart(Lines(part.headers)[i], CRLF);
    }
    JoinThenSplit(Lines(part.headers), CRLF);
  }

  /** No line is empty, so the blank line comes after the last header. */
  lemma {:induction false} NoEarlyHeaderEnd(lines: seq<Bytes>, rest: Bytes, i: nat)
    requires lines != [] && forall j :: 0 <= j < |lines| ==> Plain(lines[j]) && lines[j] != []
    requires i < |Join(lines, CRLF)|
    ensures !OccursAt(Join(lines, CRLF) + HEADER_END + rest, HEADER_END, i)
  {
    var s, n := Join(lines, CRLF) + HEADER_END + rest, |lines[0]|;
    if i < n {
      assert s[i] == lines[0][i];
      Mismatch(s, HEADER_END, i, 0);
    } else {
      var later := Join(lines[1..], CRLF) + HEADER_END + rest;
      assert s == lines[0] + CRLF + later;
      if i == n {
        assert s[n + 2] == later[0] == lines[1][0];
        Mismatch(s, HEADER_END, i, 2);
      } else if i == n + 1 {
        assert s[i] == '\n';
        Mismatch(s, HEADER_END, i, 0);
      } else {
        NoEarlyHeaderEnd(lines[1..], rest, i - n - 2);
        assert s[n + 2..|s|] == later;
        if i + |HEADER_END| <= |s| {
          OccursInSlice(s, n + 2, |s|, HEADER_END, i - n - 2);
        }
      }
    }
  }

  lemma HeaderEndFound(part: Part)
    requires part.headers != [] && forall i :: 0 <= i < |part.headers| ==> WellFormedHeader(part.headers[i])
    ensures Find(Block(part) + HEADER_END + part.body, HEADER_END) == Some(|Block(part)|)
  {
    var s, n := Block(part) + HEADER_END + part.body, |Block(part)|;
    forall j | 0 <= j < |part.headers| ensures Plain(Lines(part.headers)[j]) && Lines(part.headers)[j] != [] {
      LineIsPlain(part.headers[j]);
    }
    forall i: nat | i < n ensures !OccursAt(s, HEADER_END, i) {
      NoEarlyHeaderEnd(Lines(part.headers), part.body, i);
    }
    assert s[n..n + 4] == HEADER_END;
    assert OccursAt(s, HEADER_END, n);
  }

  // ---------------------------------------------------------------- reading a disposition back

  lemma UnquotedBack(text: Bytes)
    requires Quotable(text)
    ensures Trim("\"" + text + "\"", IsQuote) == text
  {
    var quoted, closed := "\"" + text + "\"", text + "\"";
    assert quoted[1..] == closed;
    if text == [] {
      assert closed[1..] == [];
      assert TrimStart(closed, IsQuote) == [];
    } else {
      assert closed[0] == text[0];
      assert TrimStart(quoted, IsQuote) == closed;
      assert closed[..|closed| - 1] == text;
      assert TrimEnd(text, IsQuote) == text;
    }
  }

  lemma ParameterTrims(key: Bytes, text: Bytes)
    requires key != [] && !IsSpace(key[0])
    ensures Trim(Written(key, text), IsSpace) == key + ("\"" + text + "\"")
  {
    var trimmed := key + ("\"" + text + "\"");
    assert Written(key, text) == " " + trimmed;
    TrimStartSpace(trimmed);
    assert trimmed[0] == key[0] && trimmed[|trimmed| - 1] == '"';
  }

  lemma PiecesSplit(pieces: seq<Bytes>)
    requires pieces != [] && forall i :: 0 <= i < |pieces| ==> ';' !in pieces[i]
    ensures Split(Join(pieces, ";"), ";") == pieces
  {
    forall i | 0 <= i < |pieces| ensures Absent(pieces[i], ";") && Delimits(pieces[i], ";") {
      DelimitsByStart(pieces[i], ";");
    }
    JoinThenSplit(pieces, ";");
  }

  lemma OneParameter(parameter: Bytes, rest: seq<Bytes>, so: Disposition)
    ensures var p := Trim(parameter, IsSpace);
            var name, filename := StripPrefix(p, "name="), StripPrefix(p, "filename=");
            ReadParameters([parameter] + rest, so) ==
              ReadParameters(rest, if name.Some? then so.(name := Some(Trim(name.value, IsQuote)))
                                   else if filename.Some? then so.(filename := Some(Trim(filename.value, IsQuote)))
                                   else so)
  {
    assert ([parameter] + rest)[1..] == rest;
  }

  lemma NameOnlyReads(name: Bytes)
    requires Quotable(name)
    ensures ReadParameters(Split(DispositionValue(name, None), ";")[1..], Disposition(None, None))
            == Disposition(Some(name), None)
  {
    var first := Written("name=", name);
    NameReads(name, first);
    assert DispositionValue(name, None) == Join(["form-data", first], ";") by {
      assert ["form-data", first] + [] == ["form-data", first];
    }
    PiecesSplit(["form-data", first]);
    assert ["form-data", first][1..] == [first] + [];
    OneParameter(first, [], Disposition(None, None));
  }

  lemma WrittenHasNoSemicolon(key: Bytes, text: Bytes)
    requires Quotable(text) && ';' !in key
    ensures ';' !in Written(key, text)
  {
  }

  lemma TwoParameters(name: Bytes, filename: Bytes, first: Bytes, second: Bytes)
    requires Quotable(name) && first == Written("name=", name)
    requires Quotable(filename) && second == Written("filename=", filename)
    ensures ReadParameters([first, second], Disposition(None, None)) == Disposition(Some(name), Some(filename))
  {
    NameReads(name, first);
    FilenameReads(filename, second);
    assert [first, second] == [first] + [second] && [second] == [second] + [];
    OneParameter(first, [second], Disposition(None, None));
    OneParameter(second, [], Disposition(Some(name), None));
  }

  lemma NameAndFilenameRead(name: Bytes, filename: Bytes)
    requires Quotable(name) && Quotable(filename)
    ensures ReadParameters(Split(DispositionValue(name, Some(filename)), ";")[1..], Disposition(None, None))
            == Disposition(Some(name), Some(filename))
  {
    var first, second := Written("name=", name), Written("filename=", filename);
    WrittenHasNoSemicolon("name=", name);
    WrittenHasNoSemicolon("filename=", filename);
    assert DispositionValue(name, Some(filename)) == Join(["form-data", first, second], ";") by {
      assert ["form-data", first] + [second] == ["form-data", first, second];
    }
    PiecesSplit(["form-data", first, second]);
    assert ["form-data", first, second][1..] == [first, second];
    TwoParameters(name, filename, first, second);
  }

  lemma DispositionReads(name: Bytes, filename: Option<Bytes>)
    requires Quotable(name) && (filename.Some? ==> Quotable(filename.value))
    ensures ReadParameters(Split(DispositionValue(name, filename), ";")[1..], Disposition(None, None))
            == Disposition(Some(name), filename)
  {
    if filename.None? {
      NameOnlyReads(name);
    } else {
      NameAndFilenameRead(name, filename.value);
    }
  }

  lemma NameReads(name: Bytes, parameter: Bytes)
    requires Quotable(name) && parameter == Written("name=", name)
    ensures StripPrefix(Trim(parameter, IsSpace), "name=") == Some("\"" + name + "\"")
    ensures Trim("\"" + name + "\"", IsQuote) == name
  {
    ParameterTrims("name=", name);
    var trimmed := "name=" + ("\"" + name + "\"");
    assert trimmed[|"name="|..] == "\"" + name + "\"";
    UnquotedBack(name);
  }

  lemma FilenameReads(filename: Bytes, parameter: Bytes)
    requires Quotable(filename) && parameter == Written("filename=", filename)
    ensures StripPrefix(Trim(parameter, IsSpace), "name=").None?
    ensures StripPrefix(Trim(parameter, IsSpace), "filename=") == Some("\"" + filename + "\"")
    ensures Trim("\"" + filename + "\"", IsQuote) == filename
  {
    ParameterTrims("filename=", filename);
    var trimmed := "filename=" + ("\"" + filename + "\"");
    assert trimmed[0] == 'f' && "name="[0] == 'n';
    assert trimmed[|"filename="|..] == "\"" + filename + "\"";
    UnquotedBack(filename);
  }

  lemma BoundaryIsTrimmed(boundary: Bytes)
    requires ValidBoundary(boundary)
    ensures Trim(" boundary=" + boundary, IsSpace) == "boundary=" + boundary
    ensures Trim(boundary, IsQuote) == boundary
  {
    var text := "boundary=" + boundary;
    assert BoundaryChar(boundary[0]) && BoundaryChar(boundary[|boundary| - 1]);
    assert " boundary=" + boundary == " " + text;
    TrimStartSpace(text);
    assert text[|text| - 1] == boundary[|boundary| - 1];
    TrimmedIsFixed(text, IsSpace);
    TrimmedIsFixed(boundary, IsQuote);
  }

  /** Every valid boundary can be declared and is read back. */
  lemma BoundaryReads(boundary: Bytes)
    requires ValidBoundary(boundary)
    ensures BoundaryOf("multipart/form-data; boundary=" + boundary) == Some(boundary)
  {
    var first, second := "multipart/form-data", " boundary=" + boundary;
    assert ';' !in second by {
      forall i | 0 <= i < |boundary| ensures boundary[i] != ';' {
        assert BoundaryChar(boundary[i]);
      }
    }
    assert Split("multipart/form-data; boundary=" + boundary, ";") == [first, second] by {
      assert "multipart/form-data; boundary=" + boundary == Join([first, second], ";");
      PiecesSplit([first, second]);
    }
    BoundaryIsTrimmed(boundary);
    assert BoundaryParameter([second]) == Some(boundary) by {
      assert ("boundary=" + boundary)[|"boundary="|..] == boundary;
    }
    assert BoundaryParameter([first, second]) == BoundaryParameter([second]) by {
      TrimmedIsFixed(first, IsSpace);
      assert first[0] == 'm' && "boundary="[0] == 'b';
      assert [first, second][1..] == [second];
    }
  }

  // ---------------------------------------------------------------- the round trip

  lemma SectionUnwraps(part: Part)
    ensures Unwrapped(Section(part)) == Block(part) + HEADER_END + part.body
  {
    var section, inner := Section(part), Block(part) + HEADER_END + part.body;
    assert section == CRLF + inner + CRLF;
    assert section[|CRLF|..] == inner + CRLF;
    assert (inner + CRLF)[|inner|..] == CRLF && (inner + CRLF)[..|inner|] == inner;
  }

  lemma PartParses(part: Part, marker: Bytes, isText: Bytes -> bool)
    requires WellFormedPart(part, marker, isText)
    ensures ParseSection(Block(part) + HEADER_END + part.body, isText) == Ok(part)
  {
    var inner := Block(part) + HEADER_END + part.body;
    HeaderEndFound(part);
    assert inner[..|Block(part)|] == Block(part);
    assert inner[|Block(part)| + 4..] == part.body;
    BlockSplits(part);
    LinesParse(part.headers);
    DispositionReads(part.name, part.filename);
  }

  lemma BreakIsOutsideMarker(boundary: Bytes, s: Bytes)
    requires ValidBoundary(boundary) && forall i :: 0 <= i < |s| ==> s[i] == '\r' || s[i] == '\n'
    ensures Disjoint(s, Marker(boundary))
  {
    forall i, j | 0 <= i < |s| && 0 <= j < |Marker(boundary)| ensures s[i] != Marker(boundary)[j] {
      assert j >= 2 ==> BoundaryChar(boundary[j - 2]);
    }
  }

  lemma SectionDelimits(part: Part, boundary: Bytes, isText: Bytes -> bool)
    requires ValidBoundary(boundary) && WellFormedPart(part, Marker(boundary), isText)
    ensures Delimits(Section(part), Marker(boundary))
  {
    var marker := Marker(boundary);
    BreakIsOutsideMarker(boundary, CRLF);
    BreakIsOutsideMarker(boundary, HEADER_END);
    BreakIsOutsideMarker(boundary, "\n");
    assert Absent([], marker);
    AbsentAcross(Block(part), HEADER_END, part.body, marker);
    AbsentAcross([], CRLF, Block(part) + HEADER_END + part.body, marker);
    var begun := [] + CRLF + (Block(part) + HEADER_END + part.body);
    AbsentAcross(begun, CRLF, [], marker);
    assert begun + CRLF + [] == Section(part);
    assert Section(part)[|Section(part)| - 1] == '\n';
    DelimitsByEnd(Section(part), marker);
  }

  /** Nothing, or a text that starts on a new line. */
  predicate ValidEpilogue(epilogue: Bytes) {
    epilogue == [] || CRLF <= epilogue
  }

  /** After the closing marker the first section is the closing `--`, whatever follows. */
  lemma ClosingSection(boundary: Bytes, epilogue: Bytes)
    requires ValidBoundary(boundary) && ValidEpilogue(epilogue)
    ensures "--" <= Split("--" + epilogue, Marker(boundary))[0]
  {
    var s, marker := "--" + epilogue, Marker(boundary);
    if epilogue != [] {
      assert s[2] == '\r';
      assert BoundaryChar(boundary[0]) && marker[2] == boundary[0];
      Mismatch(s, marker, 0, 2);
      Mismatch(s, marker, 1, 1);
    }
    assert !OccursAt(s, marker, 0) && !OccursAt(s, marker, 1);
    match Find(s, marker)
    case None =>
    case Some(i) => assert s[..i][..2] == "--";
  }

  /** A section that is read as one part. */
  ghost predicate ReadsBack(part: Part, isText: Bytes -> bool) {
    ParseSection(Unwrapped(Section(part)), isText) == Ok(part)
  }

  lemma PartReadsBack(part: Part, boundary: Bytes, isText: Bytes -> bool)
    requires ValidBoundary(boundary) && WellFormedPart(part, Marker(boundary), isText)
    ensures ReadsBack(part, isText) && Delimits(Section(part), Marker(boundary))
  {
    SectionUnwraps(part);
    PartParses(part, Marker(boundary), isText);
    SectionDelimits(part, boundary, isText);
  }

  /** What reading `parts` after `so` gives: all of them, unless one of them is one too many. */
  function Collected(so: seq<Part>, parts: seq<Part>): Result<seq<Part>, Error> {
    if parts == [] || |so| + |parts| <= MAX_PARTS then Ok(so + parts) else Err(TooManyParts)
  }

  lemma SectionRead(part: Part, isText: Bytes -> bool, rest: seq<Bytes>, so: seq<Part>)
    requires ReadsBack(part, isText)
    ensures ParseSections([Section(part)] + rest, isText, so) ==
      if |so| < MAX_PARTS then ParseSections(rest, isText, so + [part]) else Err(TooManyParts)
  {
    SectionIsNotClosing(part);
    assert ([Section(part)] + rest)[1..] == rest;
    assert Find([], HEADER_END).None?;
  }

  lemma EndRead(lead: Bytes, boundary: Bytes, epilogue: Bytes, isText: Bytes -> bool, so: seq<Part>)
    requires ValidBoundary(boundary) && ValidEpilogue(epilogue) && Delimits(lead, Marker(boundary))
    ensures var pieces := Split(lead + Framed([], Marker(boundary), epilogue), Marker(boundary));
            pieces[0] == lead && ParseSections(pieces[1..], isText, so) == Ok(so)
  {
    var marker, close := Marker(boundary), "--" + epilogue;
    assert lead + Framed([], marker, epilogue) == lead + marker + close;
    SplitDelimited(lead, marker, close);
    ClosingSection(boundary, epilogue);
    assert ([lead] + Split(close, marker))[1..] == Split(close, marker);
  }

  /** Splitting and reading `lead` followed by the framed parts yields those parts. */
  ghost predicate Reads(lead: Bytes, parts: seq<Part>, marker: Bytes, epilogue: Bytes,
                        isText: Bytes -> bool, so: seq<Part>) {
    var pieces := Split(lead + Framed(parts, marker, epilogue), marker);
    pieces[0] == lead && ParseSections(pieces[1..], isText, so) == Collected(so, parts)
  }

  lemma TailRead(part: Part, rest: seq<Part>, marker: Bytes, epilogue: Bytes, isText: Bytes -> bool, so: seq<Part>)
    requires ReadsBack(part, isText)
    requires Reads(Section(part), rest, marker, epilogue, isText, so + [part])
    ensures ParseSections(Split(Section(part) + Framed(rest, marker, epilogue), marker), isText, so) ==
      if |so| < MAX_PARTS then Collected(so + [part], rest) else Err(TooManyParts)
  {
    var pieces := Split(Section(part) + Framed(rest, marker, epilogue), marker);
    assert pieces == [Section(part)] + pieces[1..];
    SectionRead(part, isText, pieces[1..], so);
  }

  lemma CollectedNext(so: seq<Part>, parts: seq<Part>)
    requires parts != []
    ensures Collected(so, parts) ==
      if |so| < MAX_PARTS then Collected(so + [parts[0]], parts[1..]) else Err(TooManyParts)
  {
    HeadAndTail(so, parts);
  }

  lemma Reassociate<T>(a: seq<T>, b: seq<T>, c: seq<T>)
    ensures a + (b + c) == a + b + c
  {
  }

  lemma LeadSplits(lead: Bytes, parts: seq<Part>, marker: Bytes, epilogue: Bytes)
    requires parts != [] && marker != [] && Delimits(lead, marker)
    ensures var pieces := Split(lead + Framed(parts, marker, epilogue), marker);
            pieces[0] == lead
            && pieces[1..] == Split(Section(parts[0]) + Framed(parts[1..], marker, epilogue), marker)
  {
    var section, later := Section(parts[0]), Framed(parts[1..], marker, epilogue);
    Reassociate(marker, section, later);
    Reassociate(lead, marker, section + later);
    SplitDelimited(lead, marker, section + later);
  }

  lemma TailReads(parts: seq<Part>, marker: Bytes, epilogue: Bytes, isText: Bytes -> bool, so: seq<Part>)
    requires parts != [] && ReadsBack(parts[0], isText)
    requires Reads(Section(parts[0]), parts[1..], marker, epilogue, isText, so + [parts[0]])
    ensures ParseSections(Split(Section(parts[0]) + Framed(parts[1..], marker, epilogue), marker), isText, so)
            == Collected(so, parts)
  {
    CollectedNext(so, parts);
    TailRead(parts[0], parts[1..], marker, epilogue, isText, so);
  }

  lemma PartRead(lead: Bytes, parts: seq<Part>, marker: Bytes, epilogue: Bytes, isText: Bytes -> bool, so: seq<Part>)
    requires parts != [] && marker != [] && Delimits(lead, marker)
    requires ReadsBack(parts[0], isText)
    requires Reads(Section(parts[0]), parts[1..], marker, epilogue, isText, so + [parts[0]])
    ensures Reads(lead, parts, marker, epilogue, isText, so)
  {
    LeadSplits(lead, parts, marker, epilogue);
    TailReads(parts, marker, epilogue, isText, so);
  }

  lemma {:induction false} FramedParses(lead: Bytes, parts: seq<Part>, boundary: Bytes, epilogue: Bytes,
                                        isText: Bytes -> bool, so: seq<Part>)
    requires ValidBoundary(boundary) && ValidEpilogue(epilogue)
    requires WellFormed(parts, Marker(boundary), isText) && Delimits(lead, Marker(boundary))
    ensures Reads(lead, parts, Marker(boundary), epilogue, isText, so)
    decreases |parts|
  {
    if parts == [] {
      EndRead(lead, boundary, epilogue, isText, so);
      assert so + parts == so;
    } else {
      PartReadsBack(parts[0], boundary, isText);
      FramedParses(Section(parts[0]), parts[1..], boundary, epilogue, isText, so + [parts[0]]);
      PartRead(lead, parts, Marker(boundary), epilogue, isText, so);
    }
  }

  lemma SectionIsNotClosing(part: Part)
    ensures !("--" <= Section(part))
  {
    assert Section(part)[0] == '\r' && "--"[0] == '-';
  }

  /**
   * Every list of well-formed parts, framed with any preamble and epilogue, parses back
   * to exactly those parts, or is refused because it is longer than 256 parts.
   */
  lemma MultipartRoundTrip(parts: seq<Part>, contentType: Bytes, boundary: Bytes, preamble: Bytes,
                           epilogue: Bytes, isText: Bytes -> bool)
    requires BoundaryOf(contentType) == Some(boundary)
    requires WellFormed(parts, Marker(boundary), isText)
    requires Absent(preamble, Marker(boundary)) && ValidEpilogue(epilogue)
    requires preamble == [] || preamble[|preamble| - 1] == '\n'
    ensures Parse(contentType, preamble + Framed(parts, Marker(boundary), epilogue), isText) ==
      if |parts| <= 256 then Ok(parts) else Err(TooManyParts)
  {
    if preamble != [] {
      BreakIsOutsideMarker(boundary, [preamble[|preamble| - 1]]);
    }
    DelimitsByEnd(preamble, Marker(boundary));
    FramedParses(preamble, parts, boundary, epilogue, isText, []);
    assert [] + parts == parts;
  }

  // ---------------------------------------------------------------- what is accepted

  /** Equal letter by letter, whatever the case of each. */
  predicate SameIgnoringCase(a: Bytes, b: Bytes) {
    && |a| == |b|
    && forall i :: 0 <= i < |a| ==>
      || a[i] == b[i]
      || ('A' <= a[i] <= 'Z' && b[i] as int == a[i] as int + 32)
      || ('A' <= b[i] <= 'Z' && a[i] as int == b[i] as int + 32)
  }

  lemma LowerForgetsCase(a: Bytes, b: Bytes)
    ensures Lower(a) == Lower(b) <==> SameIgnoringCase(a, b)
  {
    if Lower(a) == Lower(b) {
      assert |Lower(a)| == |a| && |Lower(b)| == |b|;
      forall i | 0 <= i < |a|
        ensures LowerChar(a[i]) == LowerChar(b[i])
      {
        assert Lower(a)[i] == Lower(b)[i];
      }
    }
  }

  /** A header is the first one of its name, in any case; there is none only if none has the name. */
  lemma {:induction false} LookupIsFirst(headers: seq<Header>, name: Bytes)
    ensures Lookup(headers, name).None? <==>
      forall i :: 0 <= i < |headers| ==> !SameIgnoringCase(headers[i].name, name)
    ensures forall i :: 0 <= i < |headers| && SameIgnoringCase(headers[i].name, name)
                        && (forall j :: 0 <= j < i ==> !SameIgnoringCase(headers[j].name, name)) ==>
      Lookup(headers, name) == Some(headers[i].value)
  {
    if headers != [] {
      LowerForgetsCase(headers[0].name, name);
      LookupIsFirst(headers[1..], name);
      LookupNext(headers, name);
    }
  }

  lemma LookupNext(headers: seq<Header>, name: Bytes)
    requires headers != [] && (Lower(headers[0].name) == Lower(name) <==> SameIgnoringCase(headers[0].name, name))
    requires Lookup(headers[1..], name).None? <==>
      forall i :: 0 <= i < |headers[1..]| ==> !SameIgnoringCase(headers[1..][i].name, name)
    requires forall i :: 0 <= i < |headers[1..]| && SameIgnoringCase(headers[1..][i].name, name)
                         && (forall j :: 0 <= j < i ==> !SameIgnoringCase(headers[1..][j].name, name)) ==>
      Lookup(headers[1..], name) == Some(headers[1..][i].value)
    ensures Lookup(headers, name).None? <==>
      forall i :: 0 <= i < |headers| ==> !SameIgnoringCase(headers[i].name, name)
    ensures forall i :: 0 <= i < |headers| && SameIgnoringCase(headers[i].name, name)
                        && (forall j :: 0 <= j < i ==> !SameIgnoringCase(headers[j].name, name)) ==>
      Lookup(headers, name) == Some(headers[i].value)
  {
    var rest := headers[1..];
    assert forall i :: 1 <= i < |headers| ==> headers[i] == rest[i - 1];
    if !SameIgnoringCase(headers[0].name, name) {
      forall i | 0 <= i < |headers| && SameIgnoringCase(headers[i].name, name)
                 && (forall j :: 0 <= j < i ==> !SameIgnoringCase(headers[j].name, name))
        ensures Lookup(headers, name) == Some(headers[i].value)
      {
        assert rest[i - 1] == headers[i];
        assert forall j :: 0 <= j < i - 1 ==> rest[j] == headers[j + 1];
      }
    }
  }

  /** A boundary has 1 to 70 characters, all of them letters, digits or one of twelve marks. */
  lemma BoundariesAre(boundary: Bytes)
    ensures ValidBoundary(boundary) <==>
      && 1 <= |boundary| <= 70
      && forall c :: c in boundary ==>
           || 'a' <= c <= 'z' || 'A' <= c <= 'Z' || '0' <= c <= '9'
           || c in {'\'', '(', ')', '+', '_', ',', '-', '.', '/', ':', '=', '?'}
  {
    if ValidBoundary(boundary) {
      forall c | c in boundary
        ensures BoundaryChar(c)
      {
        var i :| 0 <= i < |boundary| && boundary[i] == c;
      }
    } else if 1 <= |boundary| <= 70 {
      var i :| 0 <= i < |boundary| && !BoundaryChar(boundary[i]);
      assert boundary[i] in boundary;
      assert '\'' in "'()+_,-./:=?";
    }
  }

  predicate NamesBoundary(parameter: Bytes) {
    "boundary=" <= Trim(parameter, IsSpace)
  }

  /** The first parameter that names a boundary counts. */
  lemma {:induction false} FirstBoundaryCounts(parameters: seq<Bytes>, i: nat)
    requires i < |parameters| && NamesBoundary(parameters[i])
    requires forall j :: 0 <= j < i ==> !NamesBoundary(parameters[j])
    ensures BoundaryParameter(parameters) == Some(Trim(parameters[i], IsSpace)[9..])
  {
    if i > 0 {
      FirstBoundaryCounts(parameters[1..], i - 1);
    }
  }

  /** A section with nothing in it is passed over. */
  lemma EmptySectionIsSkipped(rest: seq<Bytes>, isText: Bytes -> bool, so: seq<Part>)
    ensures ParseSections([""] + rest, isText, so) == ParseSections(rest, isText, so)
    ensures ParseSections([CRLF + CRLF] + rest, isText, so) == ParseSections(rest, isText, so)
  {
    assert ([""] + rest)[1..] == rest && ([CRLF + CRLF] + rest)[1..] == rest;
    var section := CRLF + CRLF;
    assert section[0] == '\r' && "--"[0] == '-';
    assert section[2..] == CRLF && CRLF[..0] == "";
  }

  predicate IsAccepted(part: Part) {
    0 < |part.name| <= 256 && Lookup(part.headers, "content-disposition").Some?
  }

  lemma {:induction false} SectionsAccept(sections: seq<Bytes>, isText: Bytes -> bool, so: seq<Part>)
    requires |so| <= 256 && forall i :: 0 <= i < |so| ==> IsAccepted(so[i])
    ensures var result := ParseSections(sections, isText, so);
      result.Ok? ==> so <= result.value && |result.value| <= 256
                     && forall i :: 0 <= i < |result.value| ==> IsAccepted(result.value[i])
    decreases |sections|
  {
    if sections != [] && !("--" <= sections[0]) {
      var section := Unwrapped(sections[0]);
      if section == [] {
        SectionsAccept(sections[1..], isText, so);
      } else if |so| < MAX_PARTS && ParseSection(section, isText).Ok? {
        SectionsAccept(sections[1..], isText, so + [ParseSection(section, isText).value]);
      }
    }
  }

  /** Whatever body is accepted: it has at most 256 parts, each with a disposition and a short name. */
  lemma AcceptedBody(contentType: Bytes, bytes: Bytes, isText: Bytes -> bool)
    ensures var result := Parse(contentType, bytes, isText);
      result.Ok? ==>
        && BoundaryOf(contentType).Some? && 0 < |BoundaryOf(contentType).value| <= 70
        && |result.value| <= 256 && forall i :: 0 <= i < |result.value| ==> IsAccepted(result.value[i])
  {
    if BoundaryOf(contentType).Some? {
      SectionsAccept(Split(bytes, Marker(BoundaryOf(contentType).value))[1..], isText, []);
    }
  }
}
