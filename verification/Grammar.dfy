/**
 What the two parsers accept, said without strtok: the response parser reads
 the words of the plain split, and the request parser accepts one shape.
 */
module Grammar {
  import opened Wrappers
  import opened CString
  import opened Tokens
  import opened Decimal
  import opened Protocol

  // ---- Responses

  function StatusOfName(name: Bytes): Status {
    if name == STATUS_OK then Ok
    else if name == STATUS_FILE_NOT_FOUND then FileNotFound
    else if name == STATUS_ERROR then Error
    else Invalid
  }

  /** A response header by its words; `n` is the length of the header line. */
  function ParseWords(ws: seq<Bytes>, n: nat): ResponseParse {
    if ws == [] then Undefined
    else if ws[0] != SCHEME then BadScheme
    else if |ws| == 1 then Undefined
    else if StatusOfName(ws[1]) == Invalid then BadStatus
    else if |ws| == 2 then Accepted(n + 4, StatusOfName(ws[1]), None)
    else if Atoi(ws[2]) == None then Undefined
    else Accepted(n + 4, StatusOfName(ws[1]), Atoi(ws[2]))
  }

  lemma GetStatusIs(name: Bytes)
    requires NUL !in name
    ensures GetStatus(name) == StatusOfName(name)
  {
    NamesAreGraphic();
    GraphicIsClean(STATUS_OK);
    GraphicIsClean(STATUS_FILE_NOT_FOUND);
    GraphicIsClean(STATUS_ERROR);
    StrCmpZero(name, STATUS_OK);
    StrCmpZero(name, STATUS_FILE_NOT_FOUND);
    StrCmpZero(name, STATUS_ERROR);
  }

  /** Two delimiter sets that agree on the bytes of a string find the same token. */
  lemma SameToken(s: Bytes, d: Bytes, d': Bytes)
    requires forall i | 0 <= i < |s| :: s[i] in d <==> s[i] in d'
    ensures FirstToken(s, d) == FirstToken(s, d')
  {
    var b := Span(s, d, true);
    SpanIs(s, d', true, b);
    SpanIs(s[b..], d', false, Span(s[b..], d, false));
  }

  lemma RestOf(s: Bytes, d: Bytes)
    ensures forall c | c in AfterToken(s, d) :: c in s
    ensures FirstToken(s, d).Some? ==> forall c | c in FirstToken(s, d).value :: c in s
  {
  }

  lemma ThirdWord(r: Bytes)
    requires CR !in r && LF !in r
    ensures FirstToken(r, FIELD_DELIMS) == FirstToken(r, BLANKS)
  {
    SameToken(r, FIELD_DELIMS, BLANKS);
  }

  /** Taking tokens one at a time. */
  lemma WordByWord(s: Bytes, d: Bytes)
    ensures match FirstToken(s, d)
            case None => AllTokens(s, d) == []
            case Some(t) => AllTokens(s, d) == [t] + AllTokens(AfterToken(s, d), d)
  {
  }

  lemma ParseLineByWords(line: Bytes)
    requires NUL !in line && CR !in line && LF !in line
    ensures ParseLine(line) == ParseWords(AllTokens(line, BLANKS), |line|)
  {
    hide FirstToken, AfterToken, GetStatus, StatusOfName, Atoi, StrCmp, AllTokens, ParseLine, ParseWords;
    RestOf(line, BLANKS);
    var s1 := AfterToken(line, BLANKS);
    RestOf(s1, BLANKS);
    ThirdWord(AfterToken(s1, BLANKS));
    if FirstToken(line, BLANKS).Some? {
      SchemeTest(FirstToken(line, BLANKS).value);
      if FirstToken(s1, BLANKS).Some? {
        GetStatusIs(FirstToken(s1, BLANKS).value);
      }
    }
    hide *;
    ParseLineOfTokens(line);
  }

  /** The same, once each test of a word is known to be an equality. */
  lemma ParseLineOfTokens(line: Bytes)
    requires var w := FirstToken(line, BLANKS); w.Some? ==> (StrCmp(w.value, SCHEME) == 0 <==> w.value == SCHEME)
    requires var s1 := AfterToken(line, BLANKS); var w := FirstToken(s1, BLANKS);
             && (FirstToken(line, BLANKS).Some? && w.Some? ==> GetStatus(w.value) == StatusOfName(w.value))
             && FirstToken(AfterToken(s1, BLANKS), FIELD_DELIMS) == FirstToken(AfterToken(s1, BLANKS), BLANKS)
    ensures ParseLine(line) == ParseWords(AllTokens(line, BLANKS), |line|)
  {
    hide FirstToken, AfterToken, GetStatus, StatusOfName, Atoi, StrCmp, AllTokens;
    FirstThree(line, BLANKS);
  }

  lemma FirstThree(s: Bytes, d: Bytes)
    ensures var ws := AllTokens(s, d); var s1 := AfterToken(s, d); var s2 := AfterToken(s1, d);
            && (FirstToken(s, d) == if ws == [] then None else Some(ws[0]))
            && (ws != [] ==> FirstToken(s1, d) == if |ws| == 1 then None else Some(ws[1]))
            && (|ws| > 1 ==> FirstToken(s2, d) == if |ws| == 2 then None else Some(ws[2]))
  {
    hide FirstToken, AfterToken, AllTokens;
    WordByWord(s, d);
    var s1 := AfterToken(s, d);
    WordByWord(s1, d);
    WordByWord(AfterToken(s1, d), d);
  }

  lemma SchemeTest(word: Bytes)
    requires NUL !in word
    ensures StrCmp(word, SCHEME) == 0 <==> word == SCHEME
  {
    NamesAreGraphic();
    GraphicIsClean(SCHEME);
    StrCmpZero(word, SCHEME);
  }

  /** The first strtok leaves the first piece of the split at CR and LF. */
  lemma HeaderLineIsAPiece(s: Bytes)
    requires s != [] && s[0] !in TERMINATOR
    ensures HeaderLine(s) == Split(s, TERMINATOR)[0]
    ensures forall c | c in HeaderLine(s) :: c !in TERMINATOR
  {
    LeadingWord(s, TERMINATOR);
    SplitAtSpan(s, TERMINATOR);
    SpanIs(s, TERMINATOR, true, 0);
    assert s[0..] == s;
    var n := Span(s, TERMINATOR, false);
    assert n == |s| ==> s[..n] == s;
  }

  lemma BreakIsNoScheme(line: Bytes)
    requires line != [] && line[0] in TERMINATOR
    ensures AllTokens(line, BLANKS) != [] && AllTokens(line, BLANKS)[0] != SCHEME
  {
    LeadingWord(line, BLANKS);
    WordByWord(line, BLANKS);
    assert AllTokens(line, BLANKS)[0][0] == line[0];
  }

  /** The strtok sequence of parse_response, with its restart on the truncated
      buffer and its change of delimiters, reads the words of the plain split of
      the header line, for every string. */
  lemma ParseResponseBySplit(s: Bytes)
    requires NUL !in s
    ensures ParseResponse(s) == ParseWords(NonEmpty(Split(HeaderLine(s), BLANKS)), |HeaderLine(s)|)
    ensures s != [] && s[0] !in TERMINATOR ==> HeaderLine(s) == Split(s, TERMINATOR)[0]
  {
    var line := HeaderLine(s);
    assert s != [] && s[0] in TERMINATOR ==> line != [] && line[0] == s[0];
    hide AllTokens, HeaderLine, ParseWords, ParseLine;
    AllTokensAreTheSplit(line, BLANKS);
    if s == [] {
      assert line == [];
      ParseLineByWords(line);
    } else if s[0] in TERMINATOR {
      LeadingBreakIsRefused(s);
      BreakIsNoScheme(line);
    } else {
      HeaderLineIsAPiece(s);
      assert CR in TERMINATOR && LF in TERMINATOR;
      ParseLineByWords(line);
    }
  }

  // ---- Requests

  ghost predicate AllIn(s: Bytes, d: Bytes) {
    forall i | 0 <= i < |s| :: s[i] in d
  }

  /** `s` is: blanks, the scheme, blanks, the verb, a blank and more white space,
      the path, and nothing more, or white space and anything. */
  ghost predicate RequestShape(s: Bytes, lead: Bytes, gap: Bytes, gap2: Bytes, path: Bytes, rest: Bytes) {
    && s == lead + SCHEME + gap + METHOD_GET + gap2 + path + rest
    && AllIn(lead, BLANKS) && gap != [] && AllIn(gap, BLANKS)
    && gap2 != [] && gap2[0] in BLANKS && AllIn(gap2, FIELD_DELIMS)
    && WellFormedPath(path)
    && (rest != [] ==> rest[0] in FIELD_DELIMS)
  }

  lemma VerbTest(word: Bytes)
    requires NUL !in word
    ensures CheckValidMethod(word) <==> word == METHOD_GET
  {
    NamesAreGraphic();
    GraphicIsClean(METHOD_GET);
    StrCmpZero(word, METHOD_GET);
  }

  /** Where the first token lies. */
  lemma TokenLies(s: Bytes, d: Bytes) returns (lead: Bytes, rest: Bytes)
    requires FirstToken(s, d).Some?
    ensures s == lead + FirstToken(s, d).value + rest
    ensures AllIn(lead, d) && (rest != [] ==> rest[0] in d)
    ensures AfterToken(s, d) == if rest == [] then [] else rest[1..]
  {
    var b, e := TokenStart(s, d), TokenEnd(s, d);
    lead, rest := s[..b], s[e..];
    assert s == s[..b] + s[b..e] + s[e..];
    if e < |s| {
      assert s[b..][e - b] == s[e];
      assert s[e..][1..] == s[e + 1..];
    }
  }

  lemma ShapeIsAccepted(s: Bytes, lead: Bytes, gap: Bytes, gap2: Bytes, path: Bytes, rest: Bytes)
    requires RequestShape(s, lead, gap, gap2, path, rest)
    ensures ParseRequest(s) == Get(path)
  {
    hide FirstToken, AfterToken, TokenEnd, CheckValidMethod, StrCmp;
    NamesAreGraphic();
    GraphicIsClean(SCHEME);
    GraphicIsClean(METHOD_GET);
    SchemeTest(SCHEME);
    VerbTest(METHOD_GET);
    var s2 := gap2[1..] + path + rest;
    var s1 := gap[1..] + METHOD_GET + ([gap2[0]] + s2);
    Regroup3(lead, gap, gap2, path, rest);
    TokenIs(lead, SCHEME, [gap[0]] + s1, BLANKS);
    assert ([gap[0]] + s1)[1..] == s1;
    TokenIs(gap[1..], METHOD_GET, [gap2[0]] + s2, BLANKS);
    assert ([gap2[0]] + s2)[1..] == s2;
    TokenIs(gap2[1..], path, rest, FIELD_DELIMS);
  }

  lemma Regroup3(lead: Bytes, gap: Bytes, gap2: Bytes, path: Bytes, rest: Bytes)
    requires gap != [] && gap2 != []
    ensures lead + SCHEME + gap + METHOD_GET + gap2 + path + rest
         == lead + SCHEME + ([gap[0]] + (gap[1..] + METHOD_GET + ([gap2[0]] + (gap2[1..] + path + rest))))
  {
    assert gap == [gap[0]] + gap[1..] && gap2 == [gap2[0]] + gap2[1..];
  }

  lemma AllInCons(c: byte, s: Bytes, d: Bytes)
    requires c in d && AllIn(s, d)
    ensures AllIn([c] + s, d)
  {
  }

  lemma AcceptedHasShape(s: Bytes) returns (lead: Bytes, gap: Bytes, gap2: Bytes, rest: Bytes)
    requires NUL !in s && ParseRequest(s).Get?
    ensures RequestShape(s, lead, gap, gap2, ParseRequest(s).path, rest)
  {
    hide FirstToken, AfterToken, CheckValidMethod, StrCmp;
    RestOf(s, BLANKS);
    SchemeTest(FirstToken(s, BLANKS).value);
    var s1 := AfterToken(s, BLANKS);
    RestOf(s1, BLANKS);
    VerbTest(FirstToken(s1, BLANKS).value);
    var s2 := AfterToken(s1, BLANKS);
    var path := FirstToken(s2, FIELD_DELIMS).value;
    var rest0, rest1, lead1, lead2;
    lead, rest0 := TokenLies(s, BLANKS);
    lead1, rest1 := TokenLies(s1, BLANKS);
    lead2, rest := TokenLies(s2, FIELD_DELIMS);
    hide *;
    gap, gap2 := Assemble(s, s1, s2, lead, rest0, lead1, rest1, lead2, path, rest);
  }

  /** Three tokens, with what lies before and behind each, make up the string. */
  lemma Assemble(s: Bytes, s1: Bytes, s2: Bytes, lead: Bytes, rest0: Bytes, lead1: Bytes, rest1: Bytes,
      lead2: Bytes, path: Bytes, rest: Bytes) returns (gap: Bytes, gap2: Bytes)
    requires s == lead + SCHEME + rest0 && s1 == lead1 + METHOD_GET + rest1 && s2 == lead2 + path + rest
    requires s1 == (if rest0 == [] then [] else rest0[1..]) && s2 == (if rest1 == [] then [] else rest1[1..])
    requires AllIn(lead, BLANKS) && AllIn(lead1, BLANKS) && AllIn(lead2, FIELD_DELIMS) && path != []
    requires (rest0 != [] ==> rest0[0] in BLANKS) && (rest1 != [] ==> rest1[0] in BLANKS)
    ensures s == lead + SCHEME + gap + METHOD_GET + gap2 + path + rest
    ensures gap != [] && AllIn(gap, BLANKS)
    ensures gap2 != [] && gap2[0] in BLANKS && AllIn(gap2, FIELD_DELIMS)
  {
    assert |s1| > 0 && |s2| > 0;
    gap, gap2 := [rest0[0]] + lead1, [rest1[0]] + lead2;
    AllInCons(rest0[0], lead1, BLANKS);
    AllInCons(rest1[0], lead2, FIELD_DELIMS);
    assert rest0 == [rest0[0]] + s1 && rest1 == [rest1[0]] + s2;
    assert gap[1..] == lead1 && gap2[1..] == lead2;
    Regroup3(lead, gap, gap2, path, rest);
  }

  /** What follows GETFILE GET, by its fields. */
  function ParseField(fields: seq<Bytes>): RequestParse {
    if fields == [] || fields[0] == [] then Malformed
    else if fields[0][0] != SLASH then Refused
    else Get(fields[0])
  }

  /** The strtok sequence of the server's parse, for every string, by the words of
      the plain split at blanks, and the fields of what follows the second word:
      which strings are refused, and on which a NULL token is met. */
  lemma ParseRequestByWords(s: Bytes) returns (lead: Bytes, gap: Bytes, rest: Bytes)
    requires NUL !in s
    ensures var ws := NonEmpty(Split(s, BLANKS));
            && (ws == [] ==> ParseRequest(s) == Malformed)
            && (ws != [] && ws[0] != SCHEME ==> ParseRequest(s) == Refused)
            && (ws == [SCHEME] ==> ParseRequest(s) == Malformed)
            && (|ws| > 1 && ws[0] == SCHEME && ws[1] != METHOD_GET ==> ParseRequest(s) == Refused)
            && (|ws| > 1 && ws[0] == SCHEME && ws[1] == METHOD_GET ==>
                  && s == lead + SCHEME + gap + METHOD_GET + rest
                  && AllIn(lead, BLANKS) && gap != [] && AllIn(gap, BLANKS) && (rest != [] ==> rest[0] in BLANKS)
                  && ParseRequest(s) == ParseField(NonEmpty(Split(rest, FIELD_DELIMS)))
                  && (ParseRequest(s) == Malformed <==> AllIn(rest, FIELD_DELIMS)))
  {
    hide FirstToken, AfterToken, CheckValidMethod, StrCmp, AllTokens, Split, NonEmpty;
    lead, gap, rest := [], [], [];
    AllTokensAreTheSplit(s, BLANKS);
    FirstThree(s, BLANKS);
    RestOf(s, BLANKS);
    var ws := AllTokens(s, BLANKS);
    if ws != [] {
      SchemeTest(ws[0]);
      var s1 := AfterToken(s, BLANKS);
      RestOf(s1, BLANKS);
      if |ws| > 1 {
        VerbTest(ws[1]);
        if ws[0] == SCHEME && ws[1] == METHOD_GET {
          lead, gap, rest := BehindTwoWords(s);
        }
      }
    }
  }

  lemma BehindTwoWords(s: Bytes) returns (lead: Bytes, gap: Bytes, rest: Bytes)
    requires NUL !in s && FirstToken(s, BLANKS) == Some(SCHEME)
    requires FirstToken(AfterToken(s, BLANKS), BLANKS) == Some(METHOD_GET)
    ensures s == lead + SCHEME + gap + METHOD_GET + rest
    ensures AllIn(lead, BLANKS) && gap != [] && AllIn(gap, BLANKS) && (rest != [] ==> rest[0] in BLANKS)
    ensures ParseRequest(s) == ParseField(NonEmpty(Split(rest, FIELD_DELIMS)))
    ensures ParseRequest(s) == Malformed <==> AllIn(rest, FIELD_DELIMS)
  {
    hide FirstToken, AfterToken, CheckValidMethod, StrCmp, AllTokens, Split, NonEmpty;
    SchemeTest(SCHEME);
    VerbTest(METHOD_GET);
    var s1 := AfterToken(s, BLANKS);
    var rest0, lead1;
    lead, rest0 := TokenLies(s, BLANKS);
    lead1, rest := TokenLies(s1, BLANKS);
    FieldOf(rest);
    assert ParseRequest(s) == ParseField(NonEmpty(Split(rest, FIELD_DELIMS)));
    hide *;
    gap := AssembleTwo(s, s1, lead, rest0, lead1, rest);
  }

  lemma AssembleTwo(s: Bytes, s1: Bytes, lead: Bytes, rest0: Bytes, lead1: Bytes, rest: Bytes) returns (gap: Bytes)
    requires s == lead + SCHEME + rest0 && s1 == lead1 + METHOD_GET + rest
    requires s1 == (if rest0 == [] then [] else rest0[1..])
    requires AllIn(lead1, BLANKS) && (rest0 != [] ==> rest0[0] in BLANKS)
    ensures s == lead + SCHEME + gap + METHOD_GET + rest && gap != [] && AllIn(gap, BLANKS)
  {
    assert |s1| > 0;
    gap := [rest0[0]] + lead1;
    AllInCons(rest0[0], lead1, BLANKS);
    assert rest0 == [rest0[0]] + s1;
    assert rest0 == gap + METHOD_GET + rest;
  }

  /** The last strtok call, behind the blank that ended the verb, finds the first field. */
  lemma FieldOf(rest: Bytes)
    requires rest != [] ==> rest[0] in BLANKS
    ensures var fields := NonEmpty(Split(rest, FIELD_DELIMS));
            var behind := if rest == [] then [] else rest[1..];
            && FirstToken(behind, FIELD_DELIMS) == (if fields == [] then None else Some(fields[0]))
            && (fields == [] <==> AllIn(rest, FIELD_DELIMS))
            && (fields != [] ==> fields[0] != [])
  {
    AllTokensAreTheSplit(rest, FIELD_DELIMS);
    WordByWord(rest, FIELD_DELIMS);
    if rest != [] {
      LeadingDelimiter(rest, FIELD_DELIMS);
    }
    hide AllTokens, Split, NonEmpty, FirstToken, AfterToken;
    NoToken(rest, FIELD_DELIMS);
  }

  lemma NoToken(s: Bytes, d: Bytes)
    ensures FirstToken(s, d) == None <==> AllIn(s, d)
  {
    var b := TokenStart(s, d);
    assert forall i | 0 <= i < |s| :: s[i] in s;
  }
}
