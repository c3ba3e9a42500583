/**
 The GETFILE messages: what the two printers write and what the two parsers
 make of a C string.
 */
module Protocol {
  import opened Wrappers
  import opened CString
  import opened Tokens
  import opened Decimal

  const SCHEME: Bytes := [71, 69, 84, 70, 73, 76, 69] // "GETFILE"
  const METHOD_GET: Bytes := [71, 69, 84] // "GET"
  const METHOD_POST: Bytes := [80, 79, 83, 84] // "POST"
  const METHOD_PUT: Bytes := [80, 85, 84] // "PUT"
  const METHOD_DELETE: Bytes := [68, 69, 76, 69, 84, 69] // "DELETE"
  const STATUS_OK: Bytes := [79, 75] // "OK"
  const STATUS_FILE_NOT_FOUND: Bytes := [70, 73, 76, 69, 95, 78, 79, 84, 95, 70, 79, 85, 78, 68] // "FILE_NOT_FOUND"
  const STATUS_ERROR: Bytes := [69, 82, 82, 79, 82] // "ERROR"
  const TERMINATOR: Bytes := [CR, LF, CR, LF] // "\r\n\r\n"
  const FIELD_DELIMS: Bytes := [SPACE, TAB, CR, LF] // " \t\r\n"

  // the server's status codes; any other value is reported as an error
  const GF_OK := 200
  const GF_FILE_NOT_FOUND := 400

  datatype Status = Ok | FileNotFound | Error | Invalid

  /** The status word gfs_sendheader prints. */
  function StatusName(status: int): Bytes {
    if status == GF_OK then STATUS_OK
    else if status == GF_FILE_NOT_FOUND then STATUS_FILE_NOT_FOUND
    else STATUS_ERROR
  }

  /** What the client should take a server status for. */
  function Meaning(status: int): Status {
    if status == GF_OK then Ok
    else if status == GF_FILE_NOT_FOUND then FileNotFound
    else Error
  }

  /** "GETFILE %s %d\r\n\r\n". */
  function PrintHeader(status: int, length: int): Bytes {
    PrintLine(status, length) + TERMINATOR
  }

  function PrintLine(status: int, length: int): Bytes {
    SCHEME + [SPACE] + StatusName(status) + [SPACE] + Print(length)
  }

  /** "GETFILE GET %s\r\n\r\n". */
  function PrintRequest(path: Bytes): Bytes {
    SCHEME + [SPACE] + METHOD_GET + [SPACE] + path + TERMINATOR
  }

  function GetStatus(name: Bytes): Status {
    if StrCmp(name, STATUS_OK) == 0 then Ok
    else if StrCmp(name, STATUS_FILE_NOT_FOUND) == 0 then FileNotFound
    else if StrCmp(name, STATUS_ERROR) == 0 then Error
    else Invalid
  }

  /** What parse_response comes to. Undefined: a NULL token reaches strcmp, or
      atoi gets a number that does not fit an int. */
  datatype ResponseParse =
    | Undefined
    | BadScheme
    | BadStatus
    | Accepted(headerSize: nat, status: Status, length: Option<int>)

  /** What is left of the buffer after the first strtok, on "\r\n\r\n". */
  function HeaderLine(s: Bytes): Bytes {
    s[..TokenEnd(s, TERMINATOR)]
  }

  function ParseResponse(s: Bytes): (r: ResponseParse)
    ensures r.Accepted? ==> r.headerSize == |HeaderLine(s)| + 4
  {
    ParseLine(HeaderLine(s))
  }

  /** The rest of the parse restarts strtok on the truncated buffer. */
  function ParseLine(line: Bytes): (r: ResponseParse)
    ensures r.Accepted? ==> r.headerSize == |line| + 4
  {
    match FirstToken(line, BLANKS)
    case None => Undefined
    case Some(scheme) =>
      if StrCmp(scheme, SCHEME) != 0 then BadScheme
      else
        var afterScheme := AfterToken(line, BLANKS);
        match FirstToken(afterScheme, BLANKS)
        case None => Undefined
        case Some(name) =>
          var status := GetStatus(name);
          if status == Invalid then BadStatus
          else
            match FirstToken(AfterToken(afterScheme, BLANKS), FIELD_DELIMS)
            case None => Accepted(|line| + 4, status, None)
            case Some(field) =>
              var length := Atoi(field);
              if length == None then Undefined else Accepted(|line| + 4, status, length)
  }

  function CheckValidMethod(verb: Bytes): bool {
    if StrCmp(verb, METHOD_GET) == 0 then true
    else if StrCmp(verb, METHOD_POST) == 0 then false
    else if StrCmp(verb, METHOD_PUT) == 0 then false
    else if StrCmp(verb, METHOD_DELETE) == 0 then false
    else false
  }

  /** What the server's parse comes to. Undefined: strcmp or path[0] on NULL. */
  datatype RequestParse = Malformed | Refused | Get(path: Bytes)

  function ParseRequest(s: Bytes): RequestParse {
    match FirstToken(s, BLANKS)
    case None => Malformed
    case Some(scheme) =>
      if StrCmp(scheme, SCHEME) != 0 then Refused
      else
        var afterScheme := AfterToken(s, BLANKS);
        match FirstToken(afterScheme, BLANKS)
        case None => Malformed
        case Some(verb) =>
          if !CheckValidMethod(verb) then Refused
          else
            match FirstToken(AfterToken(afterScheme, BLANKS), FIELD_DELIMS)
            case None => Malformed
            case Some(path) => if path[0] != SLASH then Refused else Get(path)
  }

  /** Visible text: nothing at or below the blank. */
  ghost predicate Graphic(s: Bytes) {
    forall i | 0 <= i < |s| :: s[i] > SPACE
  }

  lemma NamesAreGraphic()
    ensures Graphic(SCHEME) && Graphic(METHOD_GET)
    ensures Graphic(STATUS_OK) && Graphic(STATUS_FILE_NOT_FOUND) && Graphic(STATUS_ERROR)
  {
  }

  lemma GraphicIsClean(s: Bytes)
    requires Graphic(s)
    ensures NUL !in s
    ensures forall c | c in s :: c !in BLANKS && c !in TERMINATOR && c !in FIELD_DELIMS
  {
  }

  lemma TokenAtFront(word: Bytes, rest: Bytes, d: Bytes)
    requires word != [] && forall c | c in word :: c !in d
    requires rest != [] ==> rest[0] in d
    ensures TokenEnd(word + rest, d) == |word|
    ensures FirstToken(word + rest, d) == Some(word)
    ensures AfterToken(word + rest, d) == if rest == [] then [] else rest[1..]
  {
    assert [] + word + rest == word + rest;
    TokenIs([], word, rest, d);
  }

  /** Two blank-separated words and a field, as both messages begin. */
  lemma ThreeWords(a: Bytes, b: Bytes, field: Bytes, rest: Bytes)
    requires a != [] && Graphic(a) && b != [] && Graphic(b)
    requires field != [] && forall c | c in field :: c !in FIELD_DELIMS
    requires rest != [] ==> rest[0] in FIELD_DELIMS
    ensures var s := a + [SPACE] + b + [SPACE] + field + rest;
            var s1 := AfterToken(s, BLANKS);
            && FirstToken(s, BLANKS) == Some(a)
            && FirstToken(s1, BLANKS) == Some(b)
            && FirstToken(AfterToken(s1, BLANKS), FIELD_DELIMS) == Some(field)
  {
    GraphicIsClean(a);
    GraphicIsClean(b);
    var s2 := field + rest;
    var s1 := b + ([SPACE] + s2);
    assert a + [SPACE] + b + [SPACE] + field + rest == a + ([SPACE] + s1);
    TokenAtFront(a, [SPACE] + s1, BLANKS);
    assert ([SPACE] + s1)[1..] == s1;
    TokenAtFront(b, [SPACE] + s2, BLANKS);
    assert ([SPACE] + s2)[1..] == s2;
    TokenAtFront(field, rest, FIELD_DELIMS);
  }

  lemma GetStatusInverts(status: int)
    ensures GetStatus(StatusName(status)) == Meaning(status)
  {
    var name := StatusName(status);
    NamesAreGraphic();
    GraphicIsClean(name);
    StrCmpZero(name, STATUS_OK);
    StrCmpZero(name, STATUS_FILE_NOT_FOUND);
    StrCmpZero(name, STATUS_ERROR);
  }

  /** A message with the bytes that follow it, regrouped around a cut in its field. */
  lemma Regroup(a: Bytes, b: Bytes, field: Bytes, cut: nat, rest: Bytes)
    requires cut <= |field|
    ensures a + [SPACE] + b + [SPACE] + field + TERMINATOR + rest
         == a + [SPACE] + b + [SPACE] + field[..cut] + (field[cut..] + TERMINATOR + rest)
    ensures NUL !in a && NUL !in b && NUL !in field ==> NUL !in a + [SPACE] + b + [SPACE] + field + TERMINATOR
  {
    var front := a + [SPACE] + b + [SPACE];
    assert field == field[..cut] + field[cut..];
    assert front + field + TERMINATOR + rest == front + field[..cut] + (field[cut..] + TERMINATOR + rest);
  }

  /** The parse of a line whose three words are known. */
  lemma ParseLineOfWords(line: Bytes, name: Bytes, field: Bytes)
    requires FirstToken(line, BLANKS) == Some(SCHEME)
    requires var s1 := AfterToken(line, BLANKS);
             FirstToken(s1, BLANKS) == Some(name) && FirstToken(AfterToken(s1, BLANKS), FIELD_DELIMS) == Some(field)
    requires GetStatus(name) != Invalid && Atoi(field).Some?
    ensures ParseLine(line) == Accepted(|line| + 4, GetStatus(name), Atoi(field))
  {
    NamesAreGraphic();
    GraphicIsClean(SCHEME);
    StrCmpZero(SCHEME, SCHEME);
  }

  lemma LineHasWords(status: int, length: int)
    ensures var line := PrintLine(status, length); var s1 := AfterToken(line, BLANKS);
            && FirstToken(line, BLANKS) == Some(SCHEME)
            && FirstToken(s1, BLANKS) == Some(StatusName(status))
            && FirstToken(AfterToken(s1, BLANKS), FIELD_DELIMS) == Some(Print(length))
  {
    var name, number := StatusName(status), Print(length);
    NamesAreGraphic();
    GraphicIsClean(number);
    assert PrintLine(status, length) == SCHEME + [SPACE] + name + [SPACE] + number + [];
    hide FirstToken, AfterToken, Print, PrintLine;
    ThreeWords(SCHEME, name, number, []);
  }

  lemma LineRoundTrip(status: int, length: int)
    requires INT_MIN <= length <= INT_MAX
    ensures var line := PrintLine(status, length);
            ParseLine(line) == Accepted(|line| + 4, Meaning(status), Some(length))
  {
    hide FirstToken, AfterToken, Print, PrintLine, Atoi, ParseLine, GetStatus;
    LineHasWords(status, length);
    GetStatusInverts(status);
    AtoiOfPrint(length);
    ParseLineOfWords(PrintLine(status, length), StatusName(status), Print(length));
  }

  /** The line is what the first strtok leaves of the buffer, whatever follows it. */
  lemma HeaderLineOfPrinted(line: Bytes, tail: Bytes)
    requires line != [] && NUL !in line && forall c | c in line :: c !in TERMINATOR
    ensures HeaderLine(CStr(line + TERMINATOR + tail)) == line
  {
    CStrAppend(line + TERMINATOR, tail);
    assert line + TERMINATOR + CStr(tail) == line + (TERMINATOR + CStr(tail));
    TokenAtFront(line, TERMINATOR + CStr(tail), TERMINATOR);
  }

  /** The response round trip: whatever bytes follow the printed header, the
      client reads back its status, its number and its exact size. */
  lemma ResponseRoundTrip(status: int, length: int, tail: Bytes)
    requires INT_MIN <= length <= INT_MAX
    ensures ParseResponse(CStr(PrintHeader(status, length) + tail))
         == Accepted(|PrintHeader(status, length)|, Meaning(status), Some(length))
  {
    var line := PrintLine(status, length);
    NamesAreGraphic();
    GraphicIsClean(StatusName(status));
    GraphicIsClean(Print(length));
    GraphicIsClean(SCHEME);
    HeaderLineOfPrinted(line, tail);
    LineRoundTrip(status, length);
  }

  /** A response that starts with CR or LF is refused: the first strtok leaves
      the byte in place and the scheme token begins with it. */
  lemma LeadingBreakIsRefused(s: Bytes)
    requires NUL !in s && s != [] && s[0] in TERMINATOR
    ensures ParseResponse(s) == BadScheme
  {
    var line := HeaderLine(s);
    assert line[0] == s[0];
    SpanIs(line, BLANKS, true, 0);
    assert line[0..] == line;
    var scheme := line[..TokenEnd(line, BLANKS)];
    assert FirstToken(line, BLANKS) == Some(scheme);
    assert scheme[0] == s[0];
    StrCmpZero(scheme, SCHEME);
  }

  lemma HeaderLineLength(s: Bytes, m: nat)
    requires m < |s| && s[m] in TERMINATOR && s[0] !in TERMINATOR
    ensures |HeaderLine(s)| <= m
    ensures |HeaderLine(s)| == m <==> forall k | 0 <= k < m :: s[k] !in TERMINATOR
  {
    SpanIs(s, TERMINATOR, true, 0);
    assert s[0..] == s;
    if forall k | 0 <= k < m :: s[k] !in TERMINATOR {
      SpanIs(s, TERMINATOR, false, m);
    }
  }

  /** The size the client computes never passes the end of the terminator that
      strstr found, and reaches it exactly when the first CR or LF begins it. */
  lemma HeaderSizeMeetsTerminator(s: Bytes, m: nat)
    requires NUL !in s && StrStr(s, TERMINATOR) == Some(m)
    requires ParseResponse(s).Accepted?
    ensures ParseResponse(s).headerSize <= m + 4
    ensures ParseResponse(s).headerSize == m + 4 <==> forall k | 0 <= k < m :: s[k] != CR && s[k] != LF
  {
    hide ParseLine, HeaderLine;
    assert s[m..m + 4][0] == s[m];
    if s[0] in TERMINATOR {
      LeadingBreakIsRefused(s);
    } else {
      HeaderLineLength(s, m);
    }
  }

  lemma LineIsText(status: int, length: int)
    ensures CR !in PrintLine(status, length) && LF !in PrintLine(status, length) && PrintLine(status, length) != []
  {
    NamesAreGraphic();
    GraphicIsClean(StatusName(status));
    GraphicIsClean(Print(length));
    GraphicIsClean(SCHEME);
    assert CR in TERMINATOR && LF in TERMINATOR;
  }

  /** It does fall short: one CR too many behind any printed line, and the parser
      accepts it with a size that leaves the last LF of the terminator to the body. */
  lemma HeaderSizeFallsShort(status: int, length: int)
    requires INT_MIN <= length <= INT_MAX
    ensures var line := PrintLine(status, length); var s := line + [CR] + TERMINATOR;
            && StrStr(s, TERMINATOR) == Some(|line| + 1)
            && ParseResponse(s) == Accepted(|line| + 4, Meaning(status), Some(length))
  {
    hide PrintLine, ParseLine, StrStr, HeaderLine;
    var line := PrintLine(status, length);
    LineRoundTrip(status, length);
    LineIsText(status, length);
    SpareBreakEnds(line);
    SpareBreak(line);
  }

  lemma SpareBreakEnds(line: Bytes)
    requires line != [] && CR !in line && LF !in line
    ensures HeaderLine(line + [CR] + TERMINATOR) == line
  {
    var s := line + [CR] + TERMINATOR;
    assert s == line + ([CR] + TERMINATOR);
    TokenAtFront(line, [CR] + TERMINATOR, TERMINATOR);
    assert s[..|line|] == line;
  }

  lemma SpareBreak(line: Bytes)
    requires CR !in line
    ensures StrStr(line + [CR] + TERMINATOR, TERMINATOR) == Some(|line| + 1)
  {
    var s := line + [CR] + TERMINATOR;
    forall k: nat | k <= |line|
      ensures !OccursAt(s, TERMINATOR, k)
    {
      NotBefore(line, k);
    }
    OccursLast(line + [CR], TERMINATOR);
    hide StrStr, OccursAt;
    StrStrIs(s, TERMINATOR, |line| + 1);
  }

  lemma OccursLast(s: Bytes, pat: Bytes)
    ensures OccursAt(s + pat, pat, |s|)
  {
  }

  lemma NotBefore(line: Bytes, k: nat)
    requires k <= |line| && CR !in line
    ensures !OccursAt(line + [CR] + TERMINATOR, TERMINATOR, k)
  {
    var s := line + [CR] + TERMINATOR;
    assert k < |line| ==> s[k] == line[k] && line[k] in line;
    assert s[k..k + 4][0] == s[k] && s[k..k + 4][1] == s[k + 1];
  }

  /** The request round trip, for every path a request can carry: the server
      takes the path up to its first blank, CR or LF. */
  lemma RequestRecovers(path: Bytes, tail: Bytes)
    requires NUL !in path && path != [] && path[0] == SLASH
    ensures ParseRequest(CStr(PrintRequest(path) + tail)) == Get(path[..Span(path, FIELD_DELIMS, false)])
  {
    var req := PrintRequest(path);
    var n := Span(path, FIELD_DELIMS, false);
    var rest := path[n..] + TERMINATOR + CStr(tail);
    NamesAreGraphic();
    GraphicIsClean(SCHEME);
    GraphicIsClean(METHOD_GET);
    Regroup(SCHEME, METHOD_GET, path, n, CStr(tail));
    CStrAppend(req, tail);
    ThreeWords(SCHEME, METHOD_GET, path[..n], rest);
    StrCmpZero(SCHEME, SCHEME);
    StrCmpZero(METHOD_GET, METHOD_GET);
  }

  /** A path the protocol allows (pr1/Readme.md:163), as the server delimits it. */
  ghost predicate WellFormedPath(path: Bytes) {
    path != [] && path[0] == SLASH && forall c | c in path :: c !in FIELD_DELIMS
  }

  /** The server recovers exactly the paths that start with a slash and hold no
      blank, CR or LF; every other path comes out different or not at all. */
  lemma RequestRoundTrip(path: Bytes, tail: Bytes)
    requires NUL !in path
    ensures ParseRequest(CStr(PrintRequest(path) + tail)) == Get(path) <==> WellFormedPath(path)
  {
    if WellFormedPath(path) {
      RequestRecovers(path, tail);
      SpanIs(path, FIELD_DELIMS, false, |path|);
      assert path[..|path|] == path;
    }
  }
}
