/**
 gfc_perform from the first recv on: the header must be whole in the first
 chunk; after it, every chunk goes to the write callback until the length the
 header announced has come.
 */
module Client {
  import opened Wrappers
  import opened CString
  import opened Tokens
  import opened Decimal
  import opened Protocol
  import opened Network

  const BUFFER_SIZE := 4096

  /** What a request comes to. `code` is the return value, or None where the
      behaviour is undefined: see ResponseParse, a header that the string functions
      find to be longer than what was received, and a recv that fails in the
      body, whose -1 goes to the write callback as a size. `written` is all that
      went through the write callback, `header` what the header callback got. */
  datatype Outcome = Outcome(
    code: Option<int>,
    status: Status,
    filelen: nat,
    bytesrecv: nat,
    header: Bytes,
    written: Bytes)

  const FAILED := Outcome(Some(-1), Invalid, 0, 0, [], [])

  /** The body loop: stop as soon as `filelen` bytes have come, fail when the
      stream ends first. Returns the return value and all bytes written. */
  function Drain(filelen: nat, got: Bytes, chunks: seq<Bytes>, broken: bool): (r: (Option<int>, Bytes))
    ensures got <= r.1
    decreases |chunks|
  {
    if |got| >= filelen then (Some(0), got)
    else if chunks == [] then (if broken then None else Some(-1), got)
    else Drain(filelen, got + chunks[0], chunks[1..], broken)
  }

  /** The chunks the body loop leaves unread. */
  function Undrained(filelen: nat, got: Bytes, chunks: seq<Bytes>): seq<Bytes>
    decreases |chunks|
  {
    if |got| >= filelen || chunks == [] then chunks else Undrained(filelen, got + chunks[0], chunks[1..])
  }

  function FileLen(length: Option<int>): nat {
    if length == None then 0 else ToSize(length.value)
  }

  /** `before` is what the receive buffer holds before the first recv; `broken`
      says that the stream ends with an error. */
  function Perform(before: Bytes, chunks: seq<Bytes>, broken: bool): Outcome {
    if chunks == [] then FAILED
    else
      var first := chunks[0];
      var mem := CStr(first + Leftover(before, |first|));
      if StrStr(mem, TERMINATOR) == None then FAILED
      else
        match ParseResponse(mem)
        case BadScheme | BadStatus => FAILED
        case Undefined => FAILED.(code := None)
        case Accepted(headerSize, status, length) =>
          if headerSize > |first| then FAILED.(code := None)
          else
            var filelen := FileLen(length);
            var (code, written) := Drain(filelen, first[headerSize..], chunks[1..], broken);
            Outcome(code, status, filelen, |written|, first[..headerSize], written)
  }

  // ---- What the loop does, for every chunking

  /** Success exactly when enough bytes come; what is written is a prefix of the
      stream: all of it on failure, at least `filelen` bytes on success, and not
      a whole chunk more. */
  lemma {:induction false} DrainIs(filelen: nat, got: Bytes, chunks: seq<Bytes>, broken: bool, size: nat)
    requires Deliverable(chunks, size)
    ensures var (code, written) := Drain(filelen, got, chunks, broken); var stream := got + Concat(chunks);
            && written <= stream
            && (code == Some(0) <==> |stream| >= filelen)
            && (|stream| < filelen && !broken ==> code == Some(-1))
            && (|stream| < filelen && broken ==> code == None)
            && (code != Some(0) ==> written == stream)
            && (code == Some(0) ==> |written| >= filelen)
            && (code == Some(0) ==> |written| < filelen + size || written == got)
            && (|stream| <= filelen ==> written == stream)
    decreases |chunks|
  {
    if |got| >= filelen {
      assert |Concat(chunks)| == 0 || chunks != [];
      if chunks != [] {
        assert |Concat(chunks)| >= |chunks[0]| > 0;
      }
      assert got + [] == got;
    } else if chunks == [] {
      assert got + [] == got;
    } else {
      DrainIs(filelen, got + chunks[0], chunks[1..], broken, size);
      assert got + Concat(chunks) == got + chunks[0] + Concat(chunks[1..]);
    }
  }

  /** The loop reads on exactly while the length is not reached, and no further. */
  lemma {:induction false} DrainStops(filelen: nat, got: Bytes, chunks: seq<Bytes>, broken: bool) returns (k: nat)
    ensures k <= |chunks| && Undrained(filelen, got, chunks) == chunks[k..]
    ensures Drain(filelen, got, chunks, broken).1 == got + Concat(chunks[..k])
    ensures forall j | 0 <= j < k :: |got + Concat(chunks[..j])| < filelen
    ensures k < |chunks| ==> |got + Concat(chunks[..k])| >= filelen
    decreases |chunks|
  {
    k := 0;
    assert got + [] == got;
    if |got| < filelen && chunks != [] {
      k := DrainStops(filelen, got + chunks[0], chunks[1..], broken);
      forall j | 0 <= j <= k
        ensures got + Concat(chunks[..j + 1]) == got + chunks[0] + Concat(chunks[1..][..j])
      {
        assert chunks[..j + 1][1..] == chunks[1..][..j];
      }
      forall j | 0 <= j < k + 1
        ensures |got + Concat(chunks[..j])| < filelen
      {
        if j > 0 {
          assert |got + chunks[0] + Concat(chunks[1..][..j - 1])| < filelen;
        }
      }
      k := k + 1;
    }
  }

  /** The header is parsed alike whatever follows it in the chunk and whatever
      the buffer held before. */
  lemma HeaderIsRead(status: int, length: int, rest: Bytes)
    requires INT_MIN <= length <= INT_MAX
    ensures var header := PrintHeader(status, length); var mem := CStr(header + rest);
            && StrStr(mem, TERMINATOR).Some?
            && ParseResponse(mem) == Accepted(|header|, Meaning(status), Some(length))
  {
    ResponseRoundTrip(status, length, rest);
    var header := PrintHeader(status, length);
    HeaderIsText(status, length);
    CStrAppend(header, rest);
    hide StrStr, PrintHeader, PrintLine, ParseLine;
    assert header == PrintLine(status, length) + TERMINATOR by { PrintHeaderEnds(status, length); }
    var k := |PrintLine(status, length)|;
    var mem := CStr(header + rest);
    assert mem[k..k + 4] == TERMINATOR;
    assert OccursAt(mem, TERMINATOR, k);
    assert StrStr(mem, TERMINATOR).Some? by { StrStrFinds(mem, TERMINATOR, k); }
  }

  lemma StrStrFinds(s: Bytes, pat: Bytes, k: nat)
    requires OccursAt(s, pat, k)
    ensures StrStr(s, pat).Some?
  {
  }

  lemma PrintHeaderEnds(status: int, length: int)
    ensures PrintHeader(status, length) == PrintLine(status, length) + TERMINATOR
  {
  }

  lemma HeaderIsText(status: int, length: int)
    ensures NUL !in PrintHeader(status, length)
  {
    NamesAreGraphic();
    GraphicIsClean(StatusName(status));
    GraphicIsClean(Print(length));
    GraphicIsClean(SCHEME);
  }

  /** A stream cut inside its second part. */
  lemma CutBehind(first: Bytes, more: Bytes, header: Bytes, body: Bytes)
    requires first + more == header + body && |header| <= |first|
    ensures first[..|header|] == header && first[|header|..] + more == body
  {
    var h := |header|;
    assert first[..h] == (first + more)[..h] == (header + body)[..h] == header;
    assert first[h..] + more == (first + more)[h..] == (header + body)[h..] == body;
  }

  /** What the buffer holds past the received bytes. */
  function Leftover(before: Bytes, n: nat): Bytes {
    if n <= |before| then before[n..] else []
  }

  /** The outcome when the header is found and accepted. */
  lemma PerformAccepted(before: Bytes, chunks: seq<Bytes>, broken: bool, headerSize: nat, status: Status, length: int)
    requires chunks != [] && headerSize <= |chunks[0]|
    requires var mem := CStr(chunks[0] + Leftover(before, |chunks[0]|));
             StrStr(mem, TERMINATOR).Some? && ParseResponse(mem) == Accepted(headerSize, status, Some(length))
    ensures var (code, written) := Drain(ToSize(length), chunks[0][headerSize..], chunks[1..], broken);
            Perform(before, chunks, broken)
            == Outcome(code, status, ToSize(length), |written|, chunks[0][..headerSize], written)
  {
    hide CStr, StrStr, ParseResponse, Drain, ToSize, Leftover;
  }

  /** The first chunk brings all of the header. */
  predicate HeaderFirst(header: Bytes, chunks: seq<Bytes>) {
    chunks != [] && |header| <= |chunks[0]|
  }

  lemma PerformReads(status: int, length: int, before: Bytes, chunks: seq<Bytes>, broken: bool)
    requires INT_MIN <= length <= INT_MAX
    requires chunks != [] && PrintHeader(status, length) <= chunks[0]
    ensures var h := |PrintHeader(status, length)|;
            var (code, written) := Drain(ToSize(length), chunks[0][h..], chunks[1..], broken);
            Perform(before, chunks, broken)
            == Outcome(code, Meaning(status), ToSize(length), |written|, chunks[0][..h], written)
  {
    var header, first := PrintHeader(status, length), chunks[0];
    var rest := first[|header|..] + Leftover(before, |first|);
    assert first + Leftover(before, |first|) == header + rest;
    HeaderIsRead(status, length, rest);
    hide *;
    PerformAccepted(before, chunks, broken, |header|, Meaning(status), length);
  }

  /** Reception does not depend on the chunking: for any split of a header and
      what follows it, with the header whole in the first chunk, the outcome is
      that of draining the stream behind the header. */
  lemma ReceptionIs(status: int, length: int, body: Bytes, before: Bytes, chunks: seq<Bytes>, broken: bool)
    requires INT_MIN <= length <= INT_MAX && Deliverable(chunks, BUFFER_SIZE)
    requires Concat(chunks) == PrintHeader(status, length) + body
    requires HeaderFirst(PrintHeader(status, length), chunks)
    ensures var header := PrintHeader(status, length);
            var o := Perform(before, chunks, broken);
            && o.status == Meaning(status) && o.filelen == ToSize(length) && o.header == header
            && o.written <= body && o.bytesrecv == |o.written|
            && (o.code == Some(0) <==> |body| >= o.filelen)
            && (|body| < o.filelen && !broken ==> o.code == Some(-1))
            && (|body| < o.filelen && broken ==> o.code == None)
            && (|body| <= o.filelen ==> o.written == body)
            && (|body| > o.filelen ==> o.filelen <= |o.written| < o.filelen + BUFFER_SIZE)
  {
    var header, first := PrintHeader(status, length), chunks[0];
    assert Concat(chunks) == first + Concat(chunks[1..]);
    CutBehind(first, Concat(chunks[1..]), header, body);
    assert |header| > 0 by { PrintHeaderEnds(status, length); }
    PerformReads(status, length, before, chunks, broken);
    hide PrintHeader, Perform, Drain;
    DrainIs(ToSize(length), first[|header|..], chunks[1..], broken, BUFFER_SIZE);
  }

  // ---- When less than the header comes first

  /** The size the parser computes is never inside the part of a printed header
      that is there: it counts all of the line, and four bytes more. */
  lemma HeaderSizePasses(status: int, length: int, part: Bytes, mem: Bytes)
    requires part < PrintHeader(status, length) && part <= mem
    ensures |HeaderLine(mem)| + 4 > |part|
  {
    var line := PrintLine(status, length);
    PrintHeaderEnds(status, length);
    LineIsText(status, length);
    hide PrintHeader, PrintLine;
    if part != [] {
      var n := Min(|part|, |line|);
      assert forall k | 0 <= k < n :: mem[k] == line[k] && line[k] in line;
      SpanIs(mem, TERMINATOR, true, 0);
      assert mem[0..] == mem;
      SpanReaches(mem, TERMINATOR, false, n);
    }
  }

  /** Nothing received, no terminator in the first chunk, or a response that the
      parser turns down: -1, invalid status, and neither callback is called. */
  lemma FailsBeforeBody(before: Bytes, chunks: seq<Bytes>, broken: bool)
    requires chunks == []
             || var mem := CStr(chunks[0] + Leftover(before, |chunks[0]|));
                StrStr(mem, TERMINATOR) == None || ParseResponse(mem).BadScheme? || ParseResponse(mem).BadStatus?
    ensures Perform(before, chunks, broken) == Outcome(Some(-1), Invalid, 0, 0, [], [])
  {
    hide CStr, StrStr, ParseResponse, Leftover;
  }

  /** The return value is 0, -1 or undefined; 0 takes a parsed header. */
  lemma ReturnsAre(before: Bytes, chunks: seq<Bytes>, broken: bool)
    requires Deliverable(chunks, BUFFER_SIZE)
    ensures var o := Perform(before, chunks, broken);
            && (o.code == Some(0) || o.code == Some(-1) || o.code == None)
            && (o.code == Some(0) ==> o.status != Invalid && |o.written| >= o.filelen)
  {
    if chunks != [] {
      PerformCases(before, chunks, broken);
      StatusIsValid(before, chunks, broken);
      var o := Perform(before, chunks, broken);
      hide Perform;
      if Drained(o, chunks, broken) {
        DrainIs(o.filelen, chunks[0][|o.header|..], chunks[1..], broken, BUFFER_SIZE);
      }
    }
  }

  lemma StatusIsValid(before: Bytes, chunks: seq<Bytes>, broken: bool)
    ensures var o := Perform(before, chunks, broken); o.code == Some(0) ==> o.status != Invalid
  {
    hide CStr, StrStr, Drain, Leftover, HeaderLine, FirstToken, AfterToken, GetStatus, Atoi, StrCmp;
  }

  /** What a request can come to: it fails before its body, or the body is drained. */
  ghost predicate Drained(o: Outcome, chunks: seq<Bytes>, broken: bool) {
    && chunks != [] && |o.header| <= |chunks[0]|
    && (o.code, o.written) == Drain(o.filelen, chunks[0][|o.header|..], chunks[1..], broken)
  }

  lemma PerformCases(before: Bytes, chunks: seq<Bytes>, broken: bool)
    requires chunks != []
    ensures var o := Perform(before, chunks, broken);
            o == FAILED || o == FAILED.(code := None)
            || (Drained(o, chunks, broken)
                && |o.header| == |HeaderLine(CStr(chunks[0] + Leftover(before, |chunks[0]|)))| + 4)
  {
    hide CStr, StrStr, HeaderLine, Drain, ToSize, Leftover;
  }

  /** With only a part of a printed header at the front of the first chunk, a
      request that gets as far as its body takes more than that part for header. */
  lemma PartTaken(status: int, length: int, part: Bytes, before: Bytes, chunks: seq<Bytes>, broken: bool)
    requires chunks != [] && part < PrintHeader(status, length) && part <= chunks[0]
    ensures var o := Perform(before, chunks, broken);
            o == FAILED || o == FAILED.(code := None) || (Drained(o, chunks, broken) && |part| < |o.header|)
  {
    var first := chunks[0];
    var rest := first[|part|..] + Leftover(before, |first|);
    assert first + Leftover(before, |first|) == part + rest;
    HeaderIsText(status, length);
    assert forall i | 0 <= i < |part| :: part[i] in PrintHeader(status, length);
    CStrAppend(part, rest);
    HeaderSizePasses(status, length, part, CStr(part + rest));
    hide *;
    PerformCases(before, chunks, broken);
  }

  /** A first chunk that stops inside the header never succeeds, whatever the
      buffer held, and nothing is written; with a NUL behind the received bytes
      the terminator is not there to be found, and it fails. */
  lemma HeaderCutShort(status: int, length: int, before: Bytes, chunks: seq<Bytes>, broken: bool)
    requires chunks != [] && chunks[0] < PrintHeader(status, length)
    ensures var o := Perform(before, chunks, broken);
            && (o.code == Some(-1) || o.code == None) && o.written == o.header == [] && o.bytesrecv == 0
            && (Leftover(before, |chunks[0]|) == [] || Leftover(before, |chunks[0]|)[0] == NUL ==> o.code == Some(-1))
  {
    PartTaken(status, length, chunks[0], before, chunks, broken);
    var rest := Leftover(before, |chunks[0]|);
    if rest == [] || rest[0] == NUL {
      hide Perform;
      CutBeforeNul(status, length, chunks[0], rest);
      assert StrStr(CStr(chunks[0] + rest), TERMINATOR) == None;
      FailsWithoutTerminator(before, chunks, broken);
    }
  }

  lemma FailsWithoutTerminator(before: Bytes, chunks: seq<Bytes>, broken: bool)
    requires chunks != [] && StrStr(CStr(chunks[0] + Leftover(before, |chunks[0]|)), TERMINATOR) == None
    ensures Perform(before, chunks, broken) == FAILED
  {
  }

  lemma CutBeforeNul(status: int, length: int, first: Bytes, rest: Bytes)
    requires first < PrintHeader(status, length) && (rest == [] || rest[0] == NUL)
    ensures StrStr(CStr(first + rest), TERMINATOR) == None
  {
    var line := PrintLine(status, length);
    PrintHeaderEnds(status, length);
    HeaderIsText(status, length);
    assert forall i | 0 <= i < |first| :: first[i] in PrintHeader(status, length);
    CStrAppend(first, rest);
    assert first + CStr(rest) == first;
    LineIsText(status, length);
    hide PrintHeader, PrintLine, CStr;
    NoTerminatorInside(line, first);
  }

  /** A proper prefix of a line and its terminator holds no terminator. */
  lemma NoTerminatorInside(line: Bytes, first: Bytes)
    requires CR !in line && first < line + TERMINATOR
    ensures StrStr(first, TERMINATOR) == None
  {
    forall k: nat | k + 4 <= |first|
      ensures !OccursAt(first, TERMINATOR, k)
    {
      assert first[k] == line[k] && line[k] in line;
      assert first[k..k + 4][0] == first[k];
    }
  }

  /** Whatever the buffer held, a request succeeds exactly when the header of its
      response comes whole in the first chunk and as much of a body as it announces. */
  lemma FirstChunkDecides(status: int, length: int, body: Bytes, before: Bytes, chunks: seq<Bytes>, broken: bool)
    requires INT_MIN <= length <= INT_MAX && Deliverable(chunks, BUFFER_SIZE)
    requires Concat(chunks) == PrintHeader(status, length) + body
    ensures Perform(before, chunks, broken).code == Some(0)
            <==> HeaderFirst(PrintHeader(status, length), chunks) && |body| >= ToSize(length)
  {
    hide Perform, PrintHeader;
    var header := PrintHeader(status, length);
    if HeaderFirst(header, chunks) {
      ReceptionIs(status, length, body, before, chunks, broken);
    } else {
      assert header != [] by { PrintHeaderEnds(status, length); }
      NotFirst(header, body, chunks);
      HeaderCutShort(status, length, before, chunks, broken);
    }
  }

  lemma NotFirst(header: Bytes, body: Bytes, chunks: seq<Bytes>)
    requires header != [] && Concat(chunks) == header + body && !HeaderFirst(header, chunks)
    ensures chunks != [] && chunks[0] < header
  {
    var first := chunks[0];
    assert first + Concat(chunks[1..]) == header + body;
    assert first == (header + body)[..|first|] == header[..|first|];
  }

  /** When the connection did not even take all of the header, fewer bytes are
      written than were sent behind it, if the request succeeds at all. */
  lemma PartialHeader(
      status: int, length: int, head: Bytes, body: Bytes, before: Bytes, chunks: seq<Bytes>, broken: bool)
    requires head < PrintHeader(status, length)
    requires Deliverable(chunks, BUFFER_SIZE) && Concat(chunks) == head + body
    ensures var o := Perform(before, chunks, broken);
            o.code == Some(0) ==> |o.written| < |body|
  {
    if chunks == [] {
    } else if |chunks[0]| < |head| {
      NotFirst(head, body, chunks);
      HeaderCutShort(status, length, before, chunks, broken);
    } else {
      var first, rest := chunks[0], Concat(chunks[1..]);
      assert first + rest == head + body;
      assert head == (head + body)[..|head|] == first[..|head|];
      PartTaken(status, length, head, before, chunks, broken);
      hide Perform, PrintHeader, Drain;
      var o := Perform(before, chunks, broken);
      if o.code == Some(0) {
        DrainIs(o.filelen, first[|o.header|..], chunks[1..], broken, BUFFER_SIZE);
      }
    }
  }

  // ---- The methods

  /** A request handle: the fields gfc_perform and parse_response set, and the
      bytes the two callbacks have been given. */
  class GfcRequest {
    var status: Status
    var filelen: nat
    var bytesrecv: nat
    var header: Bytes
    var written: Bytes

    /** gfc_create. */
    constructor ()
      ensures status == Invalid && filelen == 0 && bytesrecv == 0 && header == [] && written == []
    {
      status, filelen, bytesrecv, header, written := Invalid, 0, 0, [], [];
    }

    /** parse_response: strtok on the terminator's bytes, then again from the
        start of the truncated copy. */
    method ParseInPlace(buffer: array<byte>) returns (r: ResponseParse)
      modifies this
      ensures r == ParseResponse(CStr(buffer[..]))
      ensures r.Accepted? ==> status == r.status
      ensures r.Accepted? ==> filelen == if r.length.Some? then ToSize(r.length.value) else old(filelen)
      ensures r.BadStatus? ==> status == Invalid
      ensures r.BadScheme? ==> status == old(status)
      ensures r.BadStatus? || r.BadScheme? ==> filelen == old(filelen)
      ensures bytesrecv == old(bytesrecv) && header == old(header) && written == old(written)
    {
      hide CStr, ParseLine, FirstToken, AfterToken;
      var temp := new Tokenizer(CStr(buffer[..]));
      var _ := temp.Strtok(true, TERMINATOR);
      var line := temp.Read(0);
      r := ParseLineInPlace(temp, |line| + 4);
    }

    method ParseLineInPlace(temp: Tokenizer, headerSize: nat) returns (r: ResponseParse)
      requires temp.Valid() && headerSize == |temp.At(0)| + 4
      modifies this, temp, temp.buf
      ensures r == ParseLine(old(temp.At(0)))
      ensures r.Accepted? ==> status == r.status
      ensures r.Accepted? ==> filelen == if r.length.Some? then ToSize(r.length.value) else old(filelen)
      ensures r.BadStatus? ==> status == Invalid
      ensures r.BadScheme? ==> status == old(status)
      ensures r.BadStatus? || r.BadScheme? ==> filelen == old(filelen)
      ensures bytesrecv == old(bytesrecv) && header == old(header) && written == old(written)
    {
      hide CStr, StrCmp, Atoi, FirstToken, AfterToken, GetStatus;
      var tok := temp.Strtok(true, BLANKS);
      if tok == None {
        return Undefined;
      }
      var scheme := temp.Read(tok.value);
      if StrCmp(scheme, SCHEME) != 0 {
        return BadScheme;
      }
      tok := temp.Strtok(false, BLANKS);
      if tok == None {
        return Undefined;
      }
      var name := temp.Read(tok.value);
      status := GetStatus(name);
      if status == Invalid {
        return BadStatus;
      }
      r := ParseFieldInPlace(temp, headerSize);
    }

    /** The last strtok call, and atoi. */
    method ParseFieldInPlace(temp: Tokenizer, headerSize: nat) returns (r: ResponseParse)
      requires temp.Valid()
      modifies this, temp, temp.buf
      ensures var field := FirstToken(old(temp.At(temp.save)), FIELD_DELIMS);
              var length := if field == None then None else Atoi(field.value);
              && r == (if field != None && length == None then Undefined else Accepted(headerSize, status, length))
              && (r.Accepted? ==> filelen == if length == None then old(filelen) else ToSize(length.value))
      ensures status == old(status) && bytesrecv == old(bytesrecv) && header == old(header) && written == old(written)
    {
      hide CStr, Atoi, FirstToken, AfterToken;
      var tok := temp.Strtok(false, FIELD_DELIMS);
      if tok == None {
        return Accepted(headerSize, status, None);
      }
      var field := temp.Read(tok.value);
      var length := Atoi(field);
      if length == None {
        return Undefined;
      }
      filelen := ToSize(length.value);
      r := Accepted(headerSize, status, length);
    }

    /** gfc_perform after the request is sent. `buffer` is the receive buffer on
        the stack, holding anything. */
    method PerformReceive(sock: Socket, buffer: array<byte>) returns (code: Option<int>)
      requires buffer.Length == BUFFER_SIZE && Deliverable(sock.pending, BUFFER_SIZE)
      requires status == Invalid && filelen == 0 && bytesrecv == 0 && header == [] && written == []
      modifies this, sock, buffer
      ensures var o := Perform(old(buffer[..]), old(sock.pending), old(sock.broken));
              && code == o.code
              && (code.Some? ==> Outcome(code, status, filelen, bytesrecv, header, written) == o)
      ensures code.Some? && old(sock.pending) != [] ==>
                var chunks := old(sock.pending);
                && |header| <= |chunks[0]|
                && sock.pending == if header == [] then chunks[1..]
                                   else Undrained(filelen, chunks[0][|header|..], chunks[1..])
    {
      hide CStr, ParseResponse, StrStr, Drain, Undrained;
      var size := sock.Recv(buffer);
      if size <= 0 {
        return Some(-1);
      }
      ghost var first := old(sock.pending)[0];
      assert buffer[..] == first + Leftover(old(buffer[..]), size);
      if StrStr(CStr(buffer[..]), TERMINATOR) == None {
        return Some(-1);
      }
      var r := ParseInPlace(buffer);
      match r
      case Undefined => code := None;
      case BadScheme => code := Some(-1);
      case BadStatus => code := Some(-1);
      case Accepted(headerSize, _, _) =>
        if headerSize > size {
          return None;
        }
        assert buffer[..headerSize] == first[..headerSize] && buffer[headerSize..size] == first[headerSize..];
        header := buffer[..headerSize];
        written := buffer[headerSize..size];
        bytesrecv := size - headerSize;
        code := ReceiveBody(sock, buffer);
    }

    /** The body loop; None where recv fails, and C hands the write callback a size of -1. */
    method ReceiveBody(sock: Socket, buffer: array<byte>) returns (code: Option<int>)
      requires Deliverable(sock.pending, buffer.Length) && bytesrecv == |written|
      modifies this, sock, buffer
      ensures (code, written) == Drain(old(filelen), old(written), old(sock.pending), old(sock.broken))
      ensures sock.pending == Undrained(old(filelen), old(written), old(sock.pending))
      ensures bytesrecv == |written| && status == old(status) && filelen == old(filelen) && header == old(header)
    {
      while bytesrecv < filelen
        invariant Deliverable(sock.pending, buffer.Length) && sock.broken == old(sock.broken)
        invariant bytesrecv == |written| && status == old(status) && filelen == old(filelen) && header == old(header)
        invariant Drain(filelen, written, sock.pending, sock.broken)
               == Drain(old(filelen), old(written), old(sock.pending), old(sock.broken))
        invariant Undrained(filelen, written, sock.pending)
               == Undrained(old(filelen), old(written), old(sock.pending))
        decreases |sock.pending|
      {
        ghost var chunks := sock.pending;
        var size := sock.Recv(buffer);
        if size == 0 {
          return Some(-1);
        }
        if size < 0 {
          return None;
        }
        assert buffer[..size] == chunks[0];
        written := written + buffer[..size];
        bytesrecv := bytesrecv + size;
      }
      code := Some(0);
    }
  }
}
