/**
 The micro HTTP server's request parser and response printer, and what RFC 9112 makes of them: section 3 (request line),
 section 5 (field syntax) and section 6.3 (body length). Texts are the bytes of Rust strings.
 */
module Http {
  import opened Bytes
  import opened TextUtil

  datatype HttpError = NotUtf8 | MissingMethod | MissingUri | MissingVersion | InvalidHeaderLine(line: seq<byte>) | ShortBody

  /** What was parsed, and the bytes that follow it. */
  datatype Outcome<+T> = Ok(value: T, rest: seq<byte>) | Err(error: HttpError)

  datatype Header = Header(name: seq<byte>, value: seq<byte>)

  datatype Request = Request(verb: seq<byte>, uri: seq<byte>, version: seq<byte>, headers: seq<Header>, body: seq<byte>)

  datatype RequestLine = RequestLine(verb: seq<byte>, uri: seq<byte>, version: seq<byte>)

  const CRLF: seq<byte> := [CR, LF]

  // ------------------------------------------------------------ what the parser computes

  function LineLen(s: seq<byte>): (n: nat)
    ensures n <= |s|
    ensures s != [] ==> n > 0
  {
    var i := IndexOf(s, LF);
    if i < |s| then i + 1 else i
  }

  /** `read_line`: up to and including the line feed. */
  function ReadLine(s: seq<byte>): (r: Outcome<seq<byte>>)
    ensures r.Ok? ==> r.rest == s[LineLen(s)..]
  {
    if ValidUtf8(s[..LineLen(s)]) then Ok(s[..LineLen(s)], s[LineLen(s)..]) else Err(NotUtf8)
  }

  /** The iterator `lines` drops the line feed, and a carriage return before it. */
  function Chomp(line: seq<byte>): seq<byte> {
    var n := |line|;
    if n == 0 || line[n - 1] != LF then line
    else if n == 1 || line[n - 2] != CR then line[..n - 1]
    else line[..n - 2]
  }

  function ParseRequestLine(s: seq<byte>): Outcome<RequestLine> {
    match ReadLine(s)
    case Err(e) => Err(e)
    case Ok(line, rest) =>
      match NextWord(line)
      case None => Err(MissingMethod)
      case Some(m) =>
        match NextWord(m.rest)
        case None => Err(MissingUri)
        case Some(u) =>
          match NextWord(u.rest)
          case None => Err(MissingVersion)
          case Some(v) => Ok(RequestLine(m.text, u.text, v.text), rest)
  }

  datatype Line = FieldLine(header: Header) | BadLine(line: seq<byte>) | LastLine

  /** One line of the header section; a line of one byte without a colon ends it like an empty one. */
  function ReadField(raw: seq<byte>): Line {
    var line := Chomp(raw);
    var i := IndexOf(line, COLON);
    if i < |line| then FieldLine(Header(line[..i], Trim(line[i + 1..])))
    else if |line| > 1 then BadLine(line)
    else LastLine
  }

  function ParseHeaderSection(s: seq<byte>, before: seq<Header>): Outcome<seq<Header>>
    decreases |s|
  {
    if s == [] then Ok(before, []) else
    match ReadLine(s)
    case Err(e) => Err(e)
    case Ok(raw, rest) =>
      match ReadField(raw)
      case FieldLine(h) => ParseHeaderSection(rest, before + [h])
      case BadLine(line) => Err(InvalidHeaderLine(line))
      case LastLine => Ok(before, rest)
  }

  /** The value of the first header of that name, whatever its case. */
  function Lookup(headers: seq<Header>, key: seq<byte>): (r: Option<seq<byte>>)
    ensures r.None? <==> forall h :: h in headers ==> ToAsciiLowercase(h.name) != ToAsciiLowercase(key)
    ensures r.Some? ==> exists k :: 0 <= k < |headers| && headers[k].value == r.value
                                    && ToAsciiLowercase(headers[k].name) == ToAsciiLowercase(key)
                                    && forall j :: 0 <= j < k ==> ToAsciiLowercase(headers[j].name) != ToAsciiLowercase(key)
  {
    if headers == [] then None
    else if ToAsciiLowercase(headers[0].name) == ToAsciiLowercase(key) then Some(headers[0].value)
    else
      var r := Lookup(headers[1..], key);
      assert forall h :: h in headers <==> h == headers[0] || h in headers[1..];
      assert r.Some? ==> exists k :: 1 <= k < |headers| && headers[k].value == r.value
                                     && ToAsciiLowercase(headers[k].name) == ToAsciiLowercase(key)
                                     && forall j :: 0 <= j < k ==> ToAsciiLowercase(headers[j].name) != ToAsciiLowercase(key) by {
        if r.Some? {
          var k :| 0 <= k < |headers| - 1 && headers[1..][k].value == r.value
                   && ToAsciiLowercase(headers[1..][k].name) == ToAsciiLowercase(key)
                   && forall j :: 0 <= j < k ==> ToAsciiLowercase(headers[1..][j].name) != ToAsciiLowercase(key);
          assert headers[k + 1] == headers[1..][k];
          assert forall j :: 1 <= j < k + 1 ==> headers[j] == headers[1..][j - 1];
        }
      }
      r
  }

  /** "Content-Length" */
  const CONTENT_LENGTH: seq<byte> := [67, 111, 110, 116, 101, 110, 116, 45, 76, 101, 110, 103, 116, 104]

  /** "Content-Type" */
  const CONTENT_TYPE: seq<byte> := [67, 111, 110, 116, 101, 110, 116, 45, 84, 121, 112, 101]

  function ContentLength(headers: seq<Header>): Option<nat> {
    match Lookup(headers, CONTENT_LENGTH)
    case None => None
    case Some(value) => ParseUsize(value)
  }

  function ParseRequest(s: seq<byte>): Outcome<Request> {
    match ParseRequestLine(s)
    case Err(e) => Err(e)
    case Ok(l, afterLine) =>
      match ParseHeaderSection(afterLine, [])
      case Err(e) => Err(e)
      case Ok(headers, rest) =>
        match ContentLength(headers)
        case None => Ok(Request(l.verb, l.uri, l.version, headers, []), rest)
        case Some(n) =>
          if n <= |rest| then Ok(Request(l.verb, l.uri, l.version, headers, rest[..n]), rest[n..]) else Err(ShortBody)
  }

  // ------------------------------------------------------------ the code

  /** `BufReader`: `rest` is what has not been read. */
  class BufReader {
    var rest: seq<byte>

    constructor (data: seq<byte>)
      ensures rest == data
    {
      rest := data;
    }

    /** The line is consumed even when it is not UTF-8. */
    method ReadLine() returns (r: Option<seq<byte>>)
      modifies this
      ensures rest == old(rest)[LineLen(old(rest))..]
      ensures r == if ValidUtf8(old(rest)[..LineLen(old(rest))]) then Some(old(rest)[..LineLen(old(rest))]) else None
    {
      var line := rest[..LineLen(rest)];
      rest := rest[LineLen(rest)..];
      r := if ValidUtf8(line) then Some(line) else None;
    }

    method ReadExact(n: nat) returns (r: Option<seq<byte>>)
      modifies this
      ensures r.Some? <==> n <= |old(rest)|
      ensures r.Some? ==> r.value == old(rest)[..n] && rest == old(rest)[n..]
    {
      if n > |rest| { return None; }
      r := Some(rest[..n]);
      rest := rest[n..];
    }
  }

  class HttpHeaders {
    var headers: seq<Header>

    constructor ()
      ensures headers == []
    {
      headers := [];
    }

    constructor WithHeaders(given: seq<Header>)
      ensures headers == given
    {
      headers := given;
    }

    method AddHeader(name: seq<byte>, value: seq<byte>)
      modifies this
      ensures headers == old(headers) + [Header(name, value)]
    {
      headers := headers + [Header(name, value)];
    }

    method Get(key: seq<byte>) returns (r: Option<seq<byte>>)
      ensures r == Lookup(headers, key)
    {
      var lower := ToAsciiLowercase(key);
      var k := 0;
      while k < |headers|
        invariant 0 <= k <= |headers|
        invariant Lookup(headers, key) == Lookup(headers[k..], key)
      {
        if ToAsciiLowercase(headers[k].name) == lower { return Some(headers[k].value); }
        assert headers[k..][1..] == headers[k + 1..];
        k := k + 1;
      }
      r := None;
    }
  }

  method ReadRequestLine(reader: BufReader) returns (r: Outcome<RequestLine>)
    modifies reader
    ensures match ParseRequestLine(old(reader.rest)) case Err(e) => r == Err(e) case Ok(l, s) => r == Ok(l, s) && reader.rest == s
  {
    hide NextWord;
    var line := reader.ReadLine();
    if line.None? { return Err(NotUtf8); }
    var verb := NextWord(line.value);
    if verb.None? { return Err(MissingMethod); }
    var uri := NextWord(verb.value.rest);
    if uri.None? { return Err(MissingUri); }
    var version := NextWord(uri.value.rest);
    if version.None? { return Err(MissingVersion); }
    r := Ok(RequestLine(verb.value.text, uri.value.text, version.value.text), reader.rest);
  }

  method ReadHeaderSection(reader: BufReader) returns (headers: HttpHeaders, error: Option<HttpError>)
    modifies reader
    ensures fresh(headers)
    ensures match ParseHeaderSection(old(reader.rest), [])
            case Err(e) => error == Some(e)
            case Ok(hs, s) => error.None? && headers.headers == hs && reader.rest == s
  {
    hide ReadField;
    headers := new HttpHeaders();
    while reader.rest != []
      invariant fresh(headers)
      invariant ParseHeaderSection(old(reader.rest), []) == ParseHeaderSection(reader.rest, headers.headers)
      decreases |reader.rest|
    {
      var line := reader.ReadLine();
      if line.None? { return headers, Some(NotUtf8); }
      match ReadField(line.value)
      case FieldLine(h) => headers.AddHeader(h.name, h.value);
      case BadLine(l) => return headers, Some(InvalidHeaderLine(l));
      case LastLine => return headers, None;
    }
    error := None;
  }

  method GetContentLength(headers: HttpHeaders) returns (r: Option<nat>)
    ensures r == ContentLength(headers.headers)
  {
    var value := headers.Get(CONTENT_LENGTH);
    if value.None? { return None; }
    r := ParseUsize(value.value);
  }

  /** `HttpRequest::parse`: leaves the reader at the first byte after the request. */
  method Parse(reader: BufReader) returns (r: Outcome<Request>)
    modifies reader
    ensures r == ParseRequest(old(reader.rest))
    ensures r.Ok? ==> reader.rest == r.rest
  {
    hide ParseRequestLine, ParseHeaderSection, ContentLength;
    var line := ReadRequestLine(reader);
    if line.Err? { return Err(line.error); }
    var headers, error := ReadHeaderSection(reader);
    if error.Some? { return Err(error.value); }
    var body := [];
    var len := GetContentLength(headers);
    if len.Some? {
      var read := reader.ReadExact(len.value);
      if read.None? { return Err(ShortBody); }
      body := read.value;
    }
    r := Ok(Request(line.value.verb, line.value.uri, line.value.version, headers.headers, body), reader.rest);
  }

  // ------------------------------------------------------------ the length of a body (RFC 9112, section 6.3)

  /** The fourteen letters of Content-Length, each in either case. */
  predicate NamesContentLength(n: seq<byte>) {
    && |n| == 14
    && n[0] in {67, 99} && n[1] in {79, 111} && n[2] in {78, 110} && n[3] in {84, 116} && n[4] in {69, 101}
    && n[5] in {78, 110} && n[6] in {84, 116} && n[7] == 45 && n[8] in {76, 108} && n[9] in {69, 101}
    && n[10] in {78, 110} && n[11] in {71, 103} && n[12] in {84, 116} && n[13] in {72, 104}
  }

  /** The value of the first field of that name. */
  function DeclaredLength(headers: seq<Header>): Option<seq<byte>> {
    if headers == [] then None
    else if NamesContentLength(headers[0].name) then Some(headers[0].value)
    else DeclaredLength(headers[1..])
  }

  lemma SameLowercase(n: seq<byte>)
    ensures ToAsciiLowercase(n) == ToAsciiLowercase(CONTENT_LENGTH) <==> NamesContentLength(n)
  {
    var a, b := ToAsciiLowercase(n), ToAsciiLowercase(CONTENT_LENGTH);
    assert b == [99, 111, 110, 116, 101, 110, 116, 45, 108, 101, 110, 103, 116, 104];
    if NamesContentLength(n) {
      assert forall k :: 0 <= k < 14 ==> a[k] == b[k];
    }
    if a == b {
      assert |n| == 14 && forall k :: 0 <= k < 14 ==> b[k] == if 65 <= n[k] <= 90 then n[k] + 32 else n[k];
    }
  }

  lemma {:induction false} LookupIsDeclared(headers: seq<Header>)
    ensures Lookup(headers, CONTENT_LENGTH) == DeclaredLength(headers)
    decreases |headers|
  {
    hide ToAsciiLowercase, NamesContentLength;
    if headers != [] {
      SameLowercase(headers[0].name);
      LookupIsDeclared(headers[1..]);
    }
  }

  /** The parser's content length is the number that the first Content-Length field declares, in any case of its name. */
  lemma ContentLengthIsDeclared(headers: seq<Header>)
    ensures ContentLength(headers) == match DeclaredLength(headers) case None => None case Some(v) => UsizeOf(v)
  {
    hide Lookup, DeclaredLength, ParseUsize, UsizeOf;
    LookupIsDeclared(headers);
    if DeclaredLength(headers).Some? { ParseUsizeIsDecimal(DeclaredLength(headers).value); }
  }

  /** How many bytes of body the fields announce; none if they announce no number. */
  function AnnouncedLength(headers: seq<Header>): nat {
    match DeclaredLength(headers)
    case None => 0
    case Some(v) => match UsizeOf(v) case None => 0 case Some(n) => n
  }

  // ------------------------------------------------------------ requests on the wire

  /** A field line, with the optional white space around the value. */
  datatype Field = Field(name: seq<byte>, before: seq<byte>, value: seq<byte>, after: seq<byte>)

  /** Spaces and tabs. */
  predicate Ows(s: seq<byte>) { forall k :: 0 <= k < |s| ==> s[k] == 32 || s[k] == 9 }

  /** A text that neither starts nor ends with white space. */
  predicate CleanText(s: seq<byte>) {
    ValidUtf8(s) && (s == [] || !(IsWhiteSpace(Chars(s)[0]) || IsWhiteSpace(Last(Chars(s)))))
  }

  /** A text without white space, not empty: a method, a target, a version. */
  predicate Token(s: seq<byte>) { s != [] && ValidUtf8(s) && NoneIsSpace(Chars(s)) }

  lemma TokenIsWord(s: seq<byte>)
    ensures Token(s) <==> IsWord(s)
  {
    hide Chars, NoneIsSpace, WordLen, ValidUtf8;
    if ValidUtf8(s) { WordInChars(s); }
  }

  lemma CleanIsTrimmed(s: seq<byte>)
    ensures CleanText(s) <==> ValidUtf8(s) && Trimmed(s)
  {
    hide Chars, Trimmed, IsWhiteSpace;
    if ValidUtf8(s) { TrimmedInChars(s); }
  }

  predicate FieldOk(f: Field) {
    && ValidUtf8(f.name) && LF !in f.name && COLON !in f.name
    && CleanText(f.value) && LF !in f.value
    && Ows(f.before) && Ows(f.after)
  }

  function FieldText(f: Field): seq<byte> { f.name + [COLON] + (f.before + f.value + f.after) }

  function EncodeFields(fields: seq<Field>): seq<byte> {
    if fields == [] then [] else FieldText(fields[0]) + CRLF + EncodeFields(fields[1..])
  }

  function HeadersOf(fields: seq<Field>): (r: seq<Header>)
    ensures |r| == |fields|
  {
    seq(|fields|, k requires 0 <= k < |fields| => Header(fields[k].name, fields[k].value))
  }

  datatype WireRequest = WireRequest(line: RequestLine, fields: seq<Field>, body: seq<byte>)

  function EncodeRequestLine(l: RequestLine): seq<byte> { l.verb + [SPACE] + l.uri + [SPACE] + l.version + CRLF }

  function EncodeRequest(w: WireRequest): seq<byte> { EncodeRequestLine(w.line) + EncodeFields(w.fields) + CRLF + w.body }

  function RequestOf(w: WireRequest): Request {
    Request(w.line.verb, w.line.uri, w.line.version, HeadersOf(w.fields), w.body)
  }

  /** The body is as long as the fields announce. */
  predicate WellFormed(w: WireRequest) {
    && Token(w.line.verb) && Token(w.line.uri) && Token(w.line.version)
    && (forall f :: f in w.fields ==> FieldOk(f))
    && |w.body| == AnnouncedLength(HeadersOf(w.fields))
  }

  // ------------------------------------------------------------ parsing what is on the wire

  /** A line that ends in CR LF is read whole, and chomped to its text. */
  lemma ReadLineOf(text: seq<byte>, rest: seq<byte>)
    requires ValidUtf8(text) && LF !in text
    ensures ReadLine(text + CRLF + rest) == Ok(text + CRLF, rest)
    ensures Chomp(text + CRLF) == text
  {
    hide ValidUtf8;
    var s := text + CRLF + rest;
    assert s == (text + [CR]) + [LF] + rest;
    IndexOfFirst(text + [CR], LF, rest);
    assert s[..LineLen(s)] == text + CRLF && s[LineLen(s)..] == rest;
    CrlfIsUtf8();
    ValidUtf8Concat(text, CRLF);
  }

  lemma ChompLf(text: seq<byte>)
    ensures Chomp(text + [LF]) == if text != [] && text[|text| - 1] == CR then text[..|text| - 1] else text
  {
  }

  lemma CrlfIsUtf8()
    ensures ValidUtf8(CRLF) && ValidUtf8([SPACE]) && ValidUtf8([COLON]) && ValidUtf8([LF])
  {
  }

  lemma {:induction false} OwsIsSpace(s: seq<byte>)
    requires Ows(s)
    ensures ValidUtf8(s) && TrimStart(s) == [] && LF !in s
    decreases |s|
  {
    if s != [] { OwsIsSpace(s[1..]); }
  }

  lemma FieldTextIsALine(f: Field)
    requires FieldOk(f)
    ensures ValidUtf8(FieldText(f)) && LF !in FieldText(f)
  {
    hide ValidUtf8, TrimStart, Chars, IsWhiteSpace;
    OwsIsSpace(f.before);
    OwsIsSpace(f.after);
    ValidUtf8Concat(f.before, f.value);
    ValidUtf8Concat(f.before + f.value, f.after);
    CrlfIsUtf8();
    ValidUtf8Concat(f.name, [COLON]);
    ValidUtf8Concat(f.name + [COLON], f.before + f.value + f.after);
  }

  lemma ReadFieldOf(f: Field)
    requires FieldOk(f)
    ensures ReadField(FieldText(f) + CRLF) == FieldLine(Header(f.name, f.value))
  {
    hide ValidUtf8, TrimStart, TrimEnd, IndexOf, Chars, IsWhiteSpace;
    CleanIsTrimmed(f.value);
    FieldTextIsALine(f);
    ReadLineOf(FieldText(f), []);
    IndexOfFirst(f.name, COLON, f.before + f.value + f.after);
    OwsIsSpace(f.before);
    OwsIsSpace(f.after);
    TrimPadded(f.before, f.value, f.after);
    var line, n := FieldText(f), |f.name|;
    assert line[..n] == f.name && line[n + 1..] == f.before + f.value + f.after;
  }

  lemma OneField(f: Field, tail: seq<byte>, before: seq<Header>)
    requires FieldOk(f)
    ensures ParseHeaderSection(FieldText(f) + CRLF + tail, before) == ParseHeaderSection(tail, before + [Header(f.name, f.value)])
  {
    hide ReadLine, ReadField, FieldOk, FieldText;
    FieldTextIsALine(f);
    ReadLineOf(FieldText(f), tail);
    ReadFieldOf(f);
  }

  lemma EndOfFields(rest: seq<byte>, before: seq<Header>)
    ensures ParseHeaderSection(CRLF + rest, before) == Ok(before, rest)
  {
    hide ReadLine, ReadField;
    assert ValidUtf8([]) && CRLF + rest == [] + CRLF + rest;
    ReadLineOf([], rest);
    EmptyLineIsLast();
  }

  lemma {:induction false} HeaderSectionOf(fields: seq<Field>, before: seq<Header>, rest: seq<byte>)
    requires forall f :: f in fields ==> FieldOk(f)
    ensures ParseHeaderSection(EncodeFields(fields) + CRLF + rest, before) == Ok(before + HeadersOf(fields), rest)
    decreases |fields|
  {
    hide ParseHeaderSection, FieldOk, FieldText;
    var s := EncodeFields(fields) + CRLF + rest;
    if fields == [] {
      assert s == CRLF + rest && before + HeadersOf([]) == before;
      EndOfFields(rest, before);
    } else {
      var f, tail := fields[0], EncodeFields(fields[1..]) + CRLF + rest;
      assert s == FieldText(f) + CRLF + tail;
      OneField(f, tail, before);
      HeaderSectionOf(fields[1..], before + [Header(f.name, f.value)], rest);
      assert before + HeadersOf(fields) == before + [Header(f.name, f.value)] + HeadersOf(fields[1..]);
    }
  }

  lemma NothingLeft(before: seq<Header>)
    ensures ParseHeaderSection([], before) == Ok(before, [])
  {
  }

  /** The end of input ends the header section as the empty line does. */
  lemma {:induction false} HeaderSectionToTheEnd(fields: seq<Field>, before: seq<Header>)
    requires forall f :: f in fields ==> FieldOk(f)
    ensures ParseHeaderSection(EncodeFields(fields), before) == Ok(before + HeadersOf(fields), [])
    decreases |fields|
  {
    hide ParseHeaderSection, FieldOk, FieldText;
    if fields == [] {
      assert before + HeadersOf([]) == before;
      NothingLeft(before);
    } else {
      var f, tail := fields[0], EncodeFields(fields[1..]);
      assert EncodeFields(fields) == FieldText(f) + CRLF + tail;
      OneField(f, tail, before);
      HeaderSectionToTheEnd(fields[1..], before + [Header(f.name, f.value)]);
      assert before + HeadersOf(fields) == before + [Header(f.name, f.value)] + HeadersOf(fields[1..]);
    }
  }

  /** A bare line feed ends a line too. */
  lemma BareLineFeed(text: seq<byte>, rest: seq<byte>)
    requires ValidUtf8(text) && LF !in text && (text == [] || text[|text| - 1] != CR)
    ensures ReadLine(text + [LF] + rest) == Ok(text + [LF], rest) && Chomp(text + [LF]) == text
  {
    hide ValidUtf8, IndexOf, Chomp;
    var s := text + [LF] + rest;
    IndexOfFirst(text, LF, rest);
    assert s[..LineLen(s)] == text + [LF] && s[LineLen(s)..] == rest;
    CrlfIsUtf8();
    ValidUtf8Concat(text, [LF]);
    ChompLf(text);
  }

  // ------------------------------------------------------------ what is refused

  /** A line of at least two bytes without a colon is no field. */
  lemma NoColonIsRefused(line: seq<byte>, rest: seq<byte>, before: seq<Header>)
    requires ValidUtf8(line) && LF !in line && COLON !in line && |line| > 1
    ensures ParseHeaderSection(line + CRLF + rest, before) == Err(InvalidHeaderLine(line))
  {
    hide ValidUtf8;
    ReadLineOf(line, rest);
    assert IndexOf(line, COLON) == |line|;
  }

  /** Bytes that are no UTF-8, up to the next line feed, are refused. */
  lemma BadTextIsRefused(s: seq<byte>, before: seq<Header>)
    requires !ValidUtf8(s[..LineLen(s)])
    ensures ParseRequest(s) == Err(NotUtf8) && ParseHeaderSection(s, before) == Err(NotUtf8)
  {
  }

  /** Without a word on the first line, the method is missing. */
  lemma BlankLineIsRefused(blank: seq<byte>, rest: seq<byte>)
    requires ValidUtf8(blank) && TrimStart(blank) == [] && LF !in blank
    ensures ParseRequest(blank + CRLF + rest) == Err(MissingMethod)
  {
    hide ValidUtf8, TrimStart, ReadLine, NextWord, ParseHeaderSection;
    ReadLineOf(blank, rest);
    NoWord(blank);
  }

  /** With one word, the target is missing. */
  lemma OneWordIsRefused(verb: seq<byte>, rest: seq<byte>)
    requires Token(verb)
    ensures ParseRequest(verb + CRLF + rest) == Err(MissingUri)
  {
    hide ValidUtf8, TrimStart, WordLen, ReadLine, NextWord, ParseHeaderSection, Chars, NoneIsSpace;
    TokenIsWord(verb);
    WordHasNoLineEnd(verb);
    ReadLineOf(verb, rest);
    NextWordIs(verb, CRLF);
    NothingIsBlank();
    NoWord([]);
  }

  lemma NothingIsBlank()
    ensures ValidUtf8([]) && TrimStart([]) == []
  {
  }

  /** With two words, the version is missing. */
  lemma TwoWordsAreRefused(verb: seq<byte>, uri: seq<byte>, rest: seq<byte>)
    requires Token(verb) && Token(uri)
    ensures ParseRequest(verb + [SPACE] + uri + CRLF + rest) == Err(MissingVersion)
  {
    hide ValidUtf8, TrimStart, WordLen, ReadLine, NextWord, ParseHeaderSection, Token;
    var text, afterVerb := verb + [SPACE] + uri, [SPACE] + (uri + CRLF);
    TwoWords(verb, uri);
    ReadLineOf(text, rest);
    assert text + CRLF == verb + afterVerb;
    TokenIsWord(verb);
    TokenIsWord(uri);
    NextWordIs(verb, afterVerb);
    NextWordAfterSpace(uri, CRLF);
    NothingIsBlank();
    NoWord([]);
  }

  lemma TwoWords(verb: seq<byte>, uri: seq<byte>)
    requires Token(verb) && Token(uri)
    ensures ValidUtf8(verb + [SPACE] + uri) && LF !in verb + [SPACE] + uri
  {
    hide ValidUtf8, WordLen, Chars, NoneIsSpace;
    TokenIsWord(verb);
    TokenIsWord(uri);
    WordHasNoLineEnd(verb);
    WordHasNoLineEnd(uri);
    CrlfIsUtf8();
    ValidUtf8Concat(verb, [SPACE]);
    ValidUtf8Concat(verb + [SPACE], uri);
  }

  lemma NoWord(blank: seq<byte>)
    requires ValidUtf8(blank) && TrimStart(blank) == []
    ensures NextWord(blank + CRLF) == None && NextWord(CRLF) == None
  {
    SpacesBefore(blank, CRLF);
    assert CRLF[1..] == [LF] && [LF][1..] == [];
  }

  /** A body shorter than announced is refused. */
  lemma ShortBodyIsRefused(w: WireRequest, rest: seq<byte>)
    requires Token(w.line.verb) && Token(w.line.uri) && Token(w.line.version)
    requires forall f :: f in w.fields ==> FieldOk(f)
    requires |w.body + rest| < AnnouncedLength(HeadersOf(w.fields))
    ensures ParseRequest(EncodeRequest(w) + rest) == Err(ShortBody)
  {
    hide ParseRequestLine, ParseHeaderSection, EncodeFields, EncodeRequestLine, ContentLength, IsWord, Token, FieldOk, DeclaredLength;
    TokenIsWord(w.line.verb);
    TokenIsWord(w.line.uri);
    TokenIsWord(w.line.version);
    ContentLengthIsDeclared(HeadersOf(w.fields));
    var afterHeaders := w.body + rest;
    var afterLine := EncodeFields(w.fields) + CRLF + afterHeaders;
    assert EncodeRequest(w) + rest == EncodeRequestLine(w.line) + afterLine;
    RequestLineOf(w.line, afterLine);
    HeaderSectionOf(w.fields, [], afterHeaders);
    assert [] + HeadersOf(w.fields) == HeadersOf(w.fields);
  }

  lemma EmptyLineIsLast()
    ensures ReadField([] + CRLF) == LastLine
  {
  }

  lemma RequestLineOf(l: RequestLine, rest: seq<byte>)
    requires IsWord(l.verb) && IsWord(l.uri) && IsWord(l.version)
    ensures ParseRequestLine(EncodeRequestLine(l) + rest) == Ok(l, rest)
  {
    hide ReadLine, NextWord, ValidUtf8, WordLen, Chomp;
    var text := l.verb + [SPACE] + l.uri + [SPACE] + l.version;
    RequestLineText(l);
    assert EncodeRequestLine(l) + rest == text + CRLF + rest;
    ReadLineOf(text, rest);
    var afterUri := [SPACE] + (l.version + CRLF);
    var afterVerb := [SPACE] + (l.uri + afterUri);
    assert text + CRLF == l.verb + afterVerb;
    NextWordIs(l.verb, afterVerb);
    NextWordAfterSpace(l.uri, afterUri);
    NextWordAfterSpace(l.version, CRLF);
  }

  lemma RequestLineText(l: RequestLine)
    requires IsWord(l.verb) && IsWord(l.uri) && IsWord(l.version)
    ensures var text := l.verb + [SPACE] + l.uri + [SPACE] + l.version; ValidUtf8(text) && LF !in text
  {
    hide ValidUtf8, WordLen;
    WordHasNoLineEnd(l.verb);
    WordHasNoLineEnd(l.uri);
    WordHasNoLineEnd(l.version);
    CrlfIsUtf8();
    ValidUtf8Concat(l.verb, [SPACE]);
    ValidUtf8Concat(l.verb + [SPACE], l.uri);
    ValidUtf8Concat(l.verb + [SPACE] + l.uri, [SPACE]);
    ValidUtf8Concat(l.verb + [SPACE] + l.uri + [SPACE], l.version);
  }

  lemma NextWordAfterSpace(w: seq<byte>, s: seq<byte>)
    requires IsWord(w) && (s == [] || SpaceLen(s) > 0)
    ensures NextWord([SPACE] + (w + s)) == Some(Word(w, s))
  {
    hide ValidUtf8, WordLen;
    NextWordIs(w, s);
    assert ([SPACE] + (w + s))[1..] == w + s;
  }

  /** One well-formed request is parsed to itself, and parsing stops at the byte after it. */
  lemma ParseOne(w: WireRequest, rest: seq<byte>)
    requires WellFormed(w)
    ensures ParseRequest(EncodeRequest(w) + rest) == Ok(RequestOf(w), rest)
  {
    hide ParseRequestLine, ParseHeaderSection, EncodeFields, EncodeRequestLine, ContentLength, IsWord, Token, FieldOk, DeclaredLength;
    TokenIsWord(w.line.verb);
    TokenIsWord(w.line.uri);
    TokenIsWord(w.line.version);
    ContentLengthIsDeclared(HeadersOf(w.fields));
    var afterHeaders := w.body + rest;
    var afterLine := EncodeFields(w.fields) + CRLF + afterHeaders;
    assert EncodeRequest(w) + rest == EncodeRequestLine(w.line) + afterLine;
    RequestLineOf(w.line, afterLine);
    HeaderSectionOf(w.fields, [], afterHeaders);
    assert [] + HeadersOf(w.fields) == HeadersOf(w.fields);
    assert afterHeaders[..|w.body|] == w.body && afterHeaders[|w.body|..] == rest;
    assert afterHeaders[..0] == [];
  }

  /** `parse` called `n` times on the same reader. */
  function ParseTimes(s: seq<byte>, n: nat, before: seq<Request>): Outcome<seq<Request>>
    decreases n
  {
    if n == 0 then Ok(before, s) else
    var r := ParseRequest(s);
    if r.Err? then Err(r.error) else ParseTimes(r.rest, n - 1, before + [r.value])
  }

  function EncodeAll(ws: seq<WireRequest>): seq<byte> {
    if ws == [] then [] else EncodeRequest(ws[0]) + EncodeAll(ws[1..])
  }

  function RequestsOf(ws: seq<WireRequest>): (r: seq<Request>)
    ensures |r| == |ws|
  {
    seq(|ws|, k requires 0 <= k < |ws| => RequestOf(ws[k]))
  }

  lemma {:induction false} ParseTimesOf(ws: seq<WireRequest>, rest: seq<byte>, before: seq<Request>)
    requires forall w :: w in ws ==> WellFormed(w)
    ensures ParseTimes(EncodeAll(ws) + rest, |ws|, before) == Ok(before + RequestsOf(ws), rest)
    decreases |ws|
  {
    hide ParseRequest, EncodeRequest, WellFormed, RequestOf;
    if ws == [] {
      assert EncodeAll(ws) + rest == rest;
      assert before + RequestsOf(ws) == before;
    } else {
      var tail := EncodeAll(ws[1..]) + rest;
      assert EncodeAll(ws) + rest == EncodeRequest(ws[0]) + tail;
      ParseOne(ws[0], tail);
      ParseTimesOf(ws[1..], rest, before + [RequestOf(ws[0])]);
      assert before + [RequestOf(ws[0])] + RequestsOf(ws[1..]) == before + RequestsOf(ws);
    }
  }

  /**
   Calling `parse` repeatedly on the concatenation of well-formed requests returns exactly these requests, and leaves
   whatever follows them.
   */
  lemma RepeatedParsing(ws: seq<WireRequest>, rest: seq<byte>)
    requires forall w :: w in ws ==> WellFormed(w)
    ensures ParseTimes(EncodeAll(ws) + rest, |ws|, []) == Ok(RequestsOf(ws), rest)
  {
    ParseTimesOf(ws, rest, []);
    assert [] + RequestsOf(ws) == RequestsOf(ws);
  }

  // ------------------------------------------------------------ responses

  datatype HttpResponse = HttpResponse(statusCode: nat, headers: seq<Header>, body: seq<byte>)

  /** "HTTP/1.1 " */
  const HTTP_1_1: seq<byte> := [72, 84, 84, 80, 47, 49, 46, 49, 32]

  function StatusLine(code: nat): seq<byte> { HTTP_1_1 + Decimal(code) + CRLF }

  function EncodeHeaders(headers: seq<Header>): seq<byte> {
    if headers == [] then []
    else EncodeHeader(headers[0]) + EncodeHeaders(headers[1..])
  }

  function EncodeResponse(r: HttpResponse): seq<byte> { StatusLine(r.statusCode) + EncodeHeaders(r.headers) + CRLF + r.body }

  function EncodeHeader(h: Header): seq<byte> { h.name + [COLON, SPACE] + h.value + CRLF }

  lemma {:induction false} EncodeHeadersSnoc(hs: seq<Header>, h: Header)
    ensures EncodeHeaders(hs + [h]) == EncodeHeaders(hs) + EncodeHeader(h)
    decreases |hs|
  {
    hide EncodeHeader;
    if hs == [] {
      assert (hs + [h])[1..] == [];
      assert EncodeHeaders(hs + [h]) == EncodeHeader(h) + [];
    } else {
      assert (hs + [h])[1..] == hs[1..] + [h];
      EncodeHeadersSnoc(hs[1..], h);
    }
  }

  /** `write_to`, up to the writer. */
  method WriteResponse(r: HttpResponse) returns (buffer: seq<byte>)
    ensures buffer == EncodeResponse(r)
  {
    hide EncodeHeaders;
    buffer := HTTP_1_1 + Decimal(r.statusCode) + CRLF;
    assert EncodeHeaders(r.headers[..0]) == [] by { EncodeNoHeaders(); }
    for k := 0 to |r.headers|
      invariant buffer == StatusLine(r.statusCode) + EncodeHeaders(r.headers[..k])
    {
      assert r.headers[..k + 1] == r.headers[..k] + [r.headers[k]];
      EncodeHeadersSnoc(r.headers[..k], r.headers[k]);
      buffer := buffer + (r.headers[k].name + [COLON, SPACE] + r.headers[k].value + CRLF);
    }
    assert r.headers[..|r.headers|] == r.headers;
    buffer := buffer + CRLF;
    buffer := buffer + r.body;
  }

  lemma EncodeNoHeaders()
    ensures EncodeHeaders([]) == []
  {
  }

  function New200(contentType: seq<byte>, body: seq<byte>): HttpResponse {
    HttpResponse(200, [Header(CONTENT_TYPE, contentType), Header(CONTENT_LENGTH, Decimal(|body|))], body)
  }

  /** Reading back a response: the rest of the parser's functions, after the status line. */
  function ReadBack(s: seq<byte>): Outcome<seq<Header>> {
    match ReadLine(s)
    case Err(e) => Err(e)
    case Ok(_, rest) => ParseHeaderSection(rest, [])
  }

  lemma {:induction false} AsciiText(s: seq<byte>)
    requires forall k :: 0 <= k < |s| ==> 32 <= s[k] < 0x80
    ensures ValidUtf8(s) && LF !in s
    decreases |s|
  {
    if s != [] { AsciiText(s[1..]); }
  }

  lemma {:induction false} DigitsAreTrimmed(s: seq<byte>)
    requires forall k :: 0 <= k < |s| ==> 48 <= s[k] <= 57
    ensures Trimmed(s)
    decreases |s|
  {
    if s != [] {
      DigitsAreTrimmed(s[1..]);
      TrimStartFixed(s);
      TrimStartFixed(s[1..]);
    }
  }

  /** The two headers of `new_200` as field lines. */
  function Fields200(contentType: seq<byte>, body: seq<byte>): seq<Field> {
    [Field(CONTENT_TYPE, [SPACE], contentType, []), Field(CONTENT_LENGTH, [SPACE], Decimal(|body|), [])]
  }

  /** The printer puts one space after each colon. */
  lemma {:induction false} EncodeHeadersAsFields(hs: seq<Header>, fs: seq<Field>)
    requires |hs| == |fs| && forall k :: 0 <= k < |fs| ==> fs[k] == Field(hs[k].name, [SPACE], hs[k].value, [])
    ensures EncodeHeaders(hs) == EncodeFields(fs)
    decreases |hs|
  {
    if hs != [] {
      EncodeHeadersAsFields(hs[1..], fs[1..]);
      var name, value := hs[0].name, hs[0].value;
      assert name + [COLON, SPACE] + value == name + [COLON] + ([SPACE] + value + []);
    }
  }

  lemma Response200Bytes(contentType: seq<byte>, body: seq<byte>)
    ensures EncodeResponse(New200(contentType, body))
            == StatusLine(200) + (EncodeFields(Fields200(contentType, body)) + CRLF + body)
    ensures HeadersOf(Fields200(contentType, body)) == New200(contentType, body).headers
  {
    EncodeHeadersAsFields(New200(contentType, body).headers, Fields200(contentType, body));
  }

  lemma StatusLineOf(rest: seq<byte>)
    ensures ReadLine(StatusLine(200) + rest) == Ok(StatusLine(200), rest)
  {
    assert Decimal(200) == [50, 48, 48] by { assert Decimal(20) == Decimal(2) + [48]; }
    var text := HTTP_1_1 + Decimal(200);
    AsciiText(text);
    assert StatusLine(200) + rest == text + CRLF + rest;
    ReadLineOf(text, rest);
  }

  lemma Response200Fields(contentType: seq<byte>, body: seq<byte>)
    requires ValidUtf8(contentType) && LF !in contentType && Trimmed(contentType)
    ensures forall f :: f in Fields200(contentType, body) ==> FieldOk(f)
  {
    hide ValidUtf8, TrimStart, TrimEnd, Chars, IsWhiteSpace;
    CleanIsTrimmed(contentType);
    CleanIsTrimmed(Decimal(|body|));
    AsciiText(CONTENT_TYPE);
    AsciiText(CONTENT_LENGTH);
    AsciiText(Decimal(|body|));
    DigitsAreTrimmed(Decimal(|body|));
  }

  lemma LengthOf200(contentType: seq<byte>, body: seq<byte>)
    requires |body| <= USIZE_MAX
    ensures ContentLength(New200(contentType, body).headers) == Some(|body|)
  {
    hide ParseUsize;
    var hs := New200(contentType, body).headers;
    assert |ToAsciiLowercase(hs[0].name)| != |ToAsciiLowercase(CONTENT_LENGTH)|;
    DecimalRoundTrip(|body|);
  }

  lemma {:induction false} SectionKeepsHeaders(s: seq<byte>, before: seq<Header>)
    requires ParseHeaderSection(s, before).Ok?
    ensures before <= ParseHeaderSection(s, before).value
    decreases |s|
  {
    hide ReadLine, ReadField;
    if s != [] && ReadField(ReadLine(s).value).FieldLine? {
      SectionKeepsHeaders(ReadLine(s).rest, before + [ReadField(ReadLine(s).value).header]);
    }
  }

  /** The first line of a content type with a line feed in it holds only what is before the line feed. */
  lemma BrokenContentType(contentType: seq<byte>, rest: seq<byte>)
    requires LF in contentType
    ensures var s := CONTENT_TYPE + [COLON, SPACE] + contentType + rest;
            ReadLine(s).Ok? ==> ReadField(ReadLine(s).value).FieldLine? && |ReadField(ReadLine(s).value).header.value| < |contentType|
  {
    hide ValidUtf8, TrimEnd, TrimStart, Chomp;
    var k := IndexOf(contentType, LF);
    var name := CONTENT_TYPE + [COLON, SPACE];
    var s := name + contentType + rest;
    assert s == (name + contentType[..k]) + [LF] + (contentType[k + 1..] + rest);
    IndexOfFirst(name + contentType[..k], LF, contentType[k + 1..] + rest);
    var raw := s[..LineLen(s)];
    assert raw == name + contentType[..k] + [LF];
    var cut := if k > 0 && contentType[k - 1] == CR then contentType[..k - 1] else contentType[..k];
    assert Chomp(raw) == name + cut by {
      var text := name + contentType[..k];
      ChompLf(text);
      assert k > 0 ==> text[..|text| - 1] == name + contentType[..k - 1];
    }
    ContentTypeField(cut);
  }

  lemma ContentTypeField(value: seq<byte>)
    ensures var line := CONTENT_TYPE + [COLON, SPACE] + value;
            IndexOf(line, COLON) == |CONTENT_TYPE| && line[..|CONTENT_TYPE|] == CONTENT_TYPE && Trim(line[|CONTENT_TYPE| + 1..]) == Trim(value)
  {
    var line := CONTENT_TYPE + [COLON, SPACE] + value;
    assert line == CONTENT_TYPE + [COLON] + ([SPACE] + value);
    IndexOfFirst(CONTENT_TYPE, COLON, [SPACE] + value);
    assert line[|CONTENT_TYPE| + 1..] == [SPACE] + value;
    OwsIsSpace([SPACE]);
    SpacesBefore([SPACE], value);
  }

  /** The header section of a 200 response starts with the content type. */
  lemma SectionOf200(contentType: seq<byte>, body: seq<byte>) returns (rest: seq<byte>)
    ensures EncodeFields(Fields200(contentType, body)) + CRLF + body == CONTENT_TYPE + [COLON, SPACE] + contentType + rest
    ensures exists tail :: rest == CRLF + tail
  {
    var fs := Fields200(contentType, body);
    var tail := EncodeFields(fs[1..]) + CRLF + body;
    rest := CRLF + tail;
    assert FieldText(fs[0]) == CONTENT_TYPE + [COLON, SPACE] + contentType;
  }

  /** The first header read back, if any, is the content type only when that is trimmed and without line feed. */
  lemma ContentTypeReadBack(contentType: seq<byte>, body: seq<byte>)
    requires ValidUtf8(contentType) && !(LF !in contentType && Trimmed(contentType))
    ensures var r := ParseHeaderSection(EncodeFields(Fields200(contentType, body)) + CRLF + body, []);
            r.Ok? ==> r.value == [] || r.value[0] != Header(CONTENT_TYPE, contentType)
  {
    hide ValidUtf8, TrimEnd, TrimStart, ReadLine, EncodeFields, Chomp;
    var rest := SectionOf200(contentType, body);
    var s := EncodeFields(Fields200(contentType, body)) + CRLF + body;
    var text := CONTENT_TYPE + [COLON, SPACE] + contentType;
    if LF in contentType {
      BrokenContentType(contentType, rest);
    } else {
      var tail :| rest == CRLF + tail;
      assert s == text + CRLF + tail;
      AsciiText(CONTENT_TYPE + [COLON, SPACE]);
      ValidUtf8Concat(CONTENT_TYPE + [COLON, SPACE], contentType);
      ReadLineOf(text, tail);
      ContentTypeField(contentType);
    }
    var line := ReadLine(s);
    if line.Ok? {
      assert [] + [ReadField(line.value).header] == [ReadField(line.value).header];
      var after := ParseHeaderSection(line.rest, [ReadField(line.value).header]);
      if after.Ok? { SectionKeepsHeaders(line.rest, [ReadField(line.value).header]); }
    }
  }

  /**
   What `new_200` prints reads back, headers and length exact and the body left in the reader, if and only if the content
   type neither starts nor ends with white space and has no line feed in it.
   */
  lemma ResponseReadBack(contentType: seq<byte>, body: seq<byte>)
    requires ValidUtf8(contentType) && |body| <= USIZE_MAX
    ensures var r := New200(contentType, body);
            && (ReadBack(EncodeResponse(r)) == Ok(r.headers, body) <==> LF !in contentType && CleanText(contentType))
            && ContentLength(r.headers) == Some(|body|)
  {
    hide ValidUtf8, Trimmed, CleanText, ReadLine, ParseHeaderSection, EncodeFields, EncodeResponse, ContentLength, Fields200, StatusLine;
    CleanIsTrimmed(contentType);
    Response200Bytes(contentType, body);
    StatusLineOf(EncodeFields(Fields200(contentType, body)) + CRLF + body);
    LengthOf200(contentType, body);
    if LF !in contentType && Trimmed(contentType) {
      Response200Fields(contentType, body);
      HeaderSectionOf(Fields200(contentType, body), [], body);
      assert [] + New200(contentType, body).headers == New200(contentType, body).headers;
    } else {
      ContentTypeReadBack(contentType, body);
    }
  }

  /** A line of one byte without a colon ends the header section, and what follows is taken for the body. */
  lemma OneByteLineEndsHeaders(b: byte, rest: seq<byte>, before: seq<Header>)
    requires b < 0x80 && b != COLON && b != LF
    ensures ParseHeaderSection([b] + CRLF + rest, before) == Ok(before, rest)
  {
    assert [b][1..] == [];
    ReadLineOf([b], rest);
  }

  // ------------------------------------------------------------ in letters

  /** The bytes of ASCII text. */
  function Ascii(s: string): seq<byte>
    requires forall k :: 0 <= k < |s| ==> s[k] as int < 128
  {
    seq(|s|, k requires 0 <= k < |s| => s[k] as int)
  }

  function New404(): HttpResponse { HttpResponse(404, [Header(CONTENT_TYPE, TEXT_PLAIN)], NOT_FOUND) }

  /** "text/plain" */
  const TEXT_PLAIN: seq<byte> := [116, 101, 120, 116, 47, 112, 108, 97, 105, 110]

  /** "404 Not Found" */
  const NOT_FOUND: seq<byte> := [52, 48, 52, 32, 78, 111, 116, 32, 70, 111, 117, 110, 100]

  lemma Letters()
    ensures HTTP_1_1 == Ascii("HTTP/1.1 ") && CRLF == Ascii("\r\n") && [COLON, SPACE] == Ascii(": ")
    ensures [COLON] == Ascii(":") && [SPACE] == Ascii(" ")
    ensures CONTENT_TYPE == Ascii("Content-Type") && CONTENT_LENGTH == Ascii("Content-Length")
    ensures TEXT_PLAIN == Ascii("text/plain") && NOT_FOUND == Ascii("404 Not Found")
  {
  }

  /** The whole of a 200 response. */
  lemma Response200Text(contentType: seq<byte>, body: seq<byte>)
    ensures EncodeResponse(New200(contentType, body))
            == Ascii("HTTP/1.1 ") + Decimal(200) + Ascii("\r\n")
             + (Ascii("Content-Type") + Ascii(": ") + contentType + Ascii("\r\n"))
             + (Ascii("Content-Length") + Ascii(": ") + Decimal(|body|) + Ascii("\r\n"))
             + Ascii("\r\n") + body
  {
    hide Ascii, Decimal;
    Letters();
    var hs := New200(contentType, body).headers;
    TwoHeaders(hs[0], hs[1]);
    hide EncodeHeaders;
    assert hs == [hs[0], hs[1]];
    Associate(StatusLine(200), EncodeHeader(hs[0]), EncodeHeader(hs[1]));
  }

  lemma TwoHeaders(a: Header, b: Header)
    ensures EncodeHeaders([a, b]) == EncodeHeader(a) + EncodeHeader(b)
  {
    hide EncodeHeader;
    assert [a, b][1..] == [b] && [b][1..] == [];
    assert EncodeHeaders([b]) == EncodeHeader(b) + [];
  }

  lemma Associate(x: seq<byte>, a: seq<byte>, b: seq<byte>)
    ensures x + (a + b) == x + a + b
  {
  }

  /** The whole of a 404 response. */
  lemma Response404Text()
    ensures EncodeResponse(New404())
            == Ascii("HTTP/1.1 ") + Decimal(404) + Ascii("\r\n")
             + (Ascii("Content-Type") + Ascii(": ") + Ascii("text/plain") + Ascii("\r\n"))
             + Ascii("\r\n") + Ascii("404 Not Found")
  {
    hide Ascii, Decimal;
    Letters();
    var hs := New404().headers;
    assert hs[1..] == [] && EncodeHeaders([]) == [];
    assert EncodeHeaders(hs) == EncodeHeader(hs[0]) + [];
    assert EncodeHeader(hs[0]) + [] == EncodeHeader(hs[0]);
  }

  /** The codes in decimal. */
  lemma CodesInLetters()
    ensures Decimal(200) == Ascii("200") && Decimal(404) == Ascii("404")
  {
    assert Decimal(20) == Decimal(2) + [48] && Decimal(40) == Decimal(4) + [48];
  }

  /** What a request looks like on the wire. */
  lemma RequestText(w: WireRequest, f: Field)
    ensures EncodeRequestLine(w.line) == w.line.verb + Ascii(" ") + w.line.uri + Ascii(" ") + w.line.version + Ascii("\r\n")
    ensures FieldText(f) == f.name + Ascii(":") + (f.before + f.value + f.after)
    ensures EncodeRequest(w) == EncodeRequestLine(w.line) + EncodeFields(w.fields) + Ascii("\r\n") + w.body
  {
    Letters();
    hide Ascii, EncodeFields;
  }
}
