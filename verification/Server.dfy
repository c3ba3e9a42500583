/** The server's side of a connection before the handler: gather the request, and take it apart. */
module Server {
  import opened Wrappers
  import opened CString
  import opened Tokens
  import opened Protocol
  import opened Network
  import opened Transfers
  import Content
  import Files

  /** strstr finds the terminator in the string at the front of `s`. */
  predicate HasTerminator(s: Bytes): (r: bool)
    ensures r <==> exists k: nat :: OccursAt(CStr(s), TERMINATOR, k)
  {
    StrStr(CStr(s), TERMINATOR).Some?
  }

  /** The bytes in the buffer when get_request returns, having started with
      `have`: chunk after chunk, cut off at `size`, up to the terminator. */
  function Gather(chunks: seq<Bytes>, size: nat, have: Bytes): (r: Bytes)
    requires |have| <= size
    ensures have <= r && |r| <= size
    decreases |chunks|
  {
    if chunks == [] then have
    else
      var n := Min(|chunks[0]|, size - |have|);
      var more := have + chunks[0][..n];
      if HasTerminator(more) then more else Gather(chunks[1..], size, more)
  }

  /** The chunks not received when get_request returns. */
  function Ungathered(chunks: seq<Bytes>, size: nat, have: Bytes): seq<Bytes>
    requires |have| <= size
    decreases |chunks|
  {
    if chunks == [] then []
    else
      var more := have + chunks[0][..Min(|chunks[0]|, size - |have|)];
      if HasTerminator(more) then chunks[1..] else Ungathered(chunks[1..], size, more)
  }

  /** For every fragmentation: the buffer is a prefix of the stream, and all of
      it, or all there is room for, unless it holds a terminator. */
  lemma {:induction false} GatherTakesAPrefix(chunks: seq<Bytes>, size: nat, have: Bytes)
    requires |have| <= size
    ensures var r := Gather(chunks, size, have); var stream := have + Concat(chunks);
            r <= stream && (!HasTerminator(r) ==> |r| == Min(size, |stream|))
    decreases |chunks|
  {
    hide HasTerminator;
    if chunks == [] {
      assert have + [] == have;
    } else {
      var n := Min(|chunks[0]|, size - |have|);
      var more := have + chunks[0][..n];
      var rest := Concat(chunks[1..]);
      assert chunks[0] == chunks[0][..n] + chunks[0][n..];
      assert have + Concat(chunks) == more + (chunks[0][n..] + rest);
      if !HasTerminator(more) {
        GatherTakesAPrefix(chunks[1..], size, more);
        if n == |chunks[0]| {
          assert chunks[0][n..] + rest == rest;
        } else {
          assert Gather(chunks[1..], size, more) == more;
        }
      }
    }
  }

  /** The part of a stream there is room for. */
  function Cut(stream: Bytes, size: nat): Bytes {
    stream[..Min(size, |stream|)]
  }

  /** Reception stops right after the first chunk with which what fits the buffer
      has a terminator, and not before. */
  lemma {:induction false} GatherStopsAtFirst(chunks: seq<Bytes>, size: nat, have: Bytes) returns (k: nat)
    requires |have| <= size
    ensures k <= |chunks| && Gather(chunks, size, have) == Cut(have + Concat(chunks[..k]), size)
    ensures Ungathered(chunks, size, have) == chunks[k..]
    ensures forall j | 0 < j < k :: !HasTerminator(Cut(have + Concat(chunks[..j]), size))
    ensures k < |chunks| ==> HasTerminator(Cut(have + Concat(chunks[..k]), size))
    decreases |chunks|
  {
    hide HasTerminator, Cut;
    if chunks == [] {
      k := 0;
      CutOfShort(have, size);
    } else {
      var more := have + chunks[0][..Min(|chunks[0]|, size - |have|)];
      CutBehind(have, chunks, 1, size);
      assert chunks[1..][..0] == [];
      CutOfShort(more, size);
      if HasTerminator(more) {
        k := 1;
      } else {
        var k' := GatherStopsAtFirst(chunks[1..], size, more);
        k := k' + 1;
        forall j | 0 < j <= k
          ensures Cut(have + Concat(chunks[..j]), size) == Cut(more + Concat(chunks[1..][..j - 1]), size)
        {
          CutBehind(have, chunks, j, size);
        }
      }
    }
  }

  lemma CutOfShort(have: Bytes, size: nat)
    requires |have| <= size
    ensures Cut(have + Concat([]), size) == have
  {
    assert have + [] == have;
  }

  /** Cutting after each chunk, or once at the end, comes to the same. */
  lemma CutBehind(have: Bytes, chunks: seq<Bytes>, j: nat, size: nat)
    requires |have| <= size && 0 < j <= |chunks|
    ensures var more := have + chunks[0][..Min(|chunks[0]|, size - |have|)];
            Cut(have + Concat(chunks[..j]), size) == Cut(more + Concat(chunks[1..][..j - 1]), size)
  {
    var first, rest := chunks[0], Concat(chunks[1..][..j - 1]);
    var n := Min(|first|, size - |have|);
    assert chunks[..j][1..] == chunks[1..][..j - 1];
    assert Concat(chunks[..j]) == first + rest;
    assert have + (first + rest) == have + first[..n] + (first[n..] + rest);
    if n < |first| {
      assert Cut(have + first[..n] + (first[n..] + rest), size) == have + first[..n];
      assert Cut(have + first[..n] + rest, size) == have + first[..n];
    } else {
      assert first[n..] + rest == rest;
    }
  }

  /** No prefix of a request's stream holds a terminator before the request is complete. */
  lemma TerminatorCompletesRequest(path: Bytes, tail: Bytes, r: Bytes)
    requires NUL !in path && WellFormedPath(path)
    requires r <= PrintRequest(path) + tail && HasTerminator(r)
    ensures |PrintRequest(path)| <= |r|
  {
    var s := CStr(r);
    var m := StrStr(s, TERMINATOR).value;
    assert s[m..m + 4][0] == CR && r[m] == s[m];
    var req := PrintRequest(path);
    NamesAreGraphic();
    if m < |req| - 4 {
      assert req[m] == CR;
      assert SCHEME + [SPACE] + METHOD_GET + [SPACE] + path == req[..|req| - 4];
      NoBreakBefore(SCHEME, METHOD_GET, path, m);
    }
  }

  lemma NoBreakBefore(a: Bytes, b: Bytes, path: Bytes, m: nat)
    requires Graphic(a) && Graphic(b) && forall c | c in path :: c !in FIELD_DELIMS
    requires m < |a + [SPACE] + b + [SPACE] + path|
    ensures (a + [SPACE] + b + [SPACE] + path)[m] != CR
  {
    var line := a + [SPACE] + b + [SPACE] + path;
    assert line[m] in a || line[m] == SPACE || line[m] in b || line[m] in path;
  }

  /** The request round trip under fragmentation: for every path the protocol
      allows, every chunking, and whatever the client sends after the request,
      the server recovers exactly that path. */
  lemma RequestUnderFragmentation(path: Bytes, tail: Bytes, chunks: seq<Bytes>, size: nat)
    requires NUL !in path && WellFormedPath(path)
    requires Concat(chunks) == PrintRequest(path) + tail && |PrintRequest(path)| <= size
    ensures ParseRequest(CStr(Gather(chunks, size, []))) == Get(path)
  {
    var req := PrintRequest(path);
    var r := Gather(chunks, size, []);
    GatherTakesAPrefix(chunks, size, []);
    assert [] + Concat(chunks) == req + tail;
    if HasTerminator(r) {
      TerminatorCompletesRequest(path, tail, r);
    }
    assert r == req + r[|req|..];
    RequestRoundTrip(path, r[|req|..]);
  }

  // ---- The methods

  /** One chunk more. */
  lemma GatherStep(chunks: seq<Bytes>, size: nat, have: Bytes)
    requires |have| <= size && chunks != []
    ensures var more := have + chunks[0][..Min(|chunks[0]|, size - |have|)];
            && Gather(chunks, size, have) == (if HasTerminator(more) then more else Gather(chunks[1..], size, more))
            && Ungathered(chunks, size, have)
               == if HasTerminator(more) then chunks[1..] else Ungathered(chunks[1..], size, more)
  {
  }

  lemma GatherNone(size: nat, have: Bytes)
    requires |have| <= size
    ensures Gather([], size, have) == have && Ungathered([], size, have) == []
  {
  }

  /** get_request. The buffer has one cell more than `size`, the cell C writes
      the terminating NUL to when the request fills it. */
  method GetRequest(sock: Socket, buffer: array<byte>, size: nat) returns (n: nat)
    requires buffer.Length == size + 1 && size > 0 && Deliverable(sock.pending, size)
    modifies sock, buffer
    ensures n == |Gather(old(sock.pending), size, [])| <= size
    ensures n > 0 ==> CStr(buffer[..]) == CStr(Gather(old(sock.pending), size, []))
    ensures n == 0 ==> buffer[..] == old(buffer[..])
    ensures sock.pending == Ungathered(old(sock.pending), size, [])
  {
    hide HasTerminator, CStr, Gather, Ungathered;
    var temp := new byte[size];
    n := 0;
    ghost var all := sock.pending;
    ghost var have: Bytes := [];
    var more := true;
    while more
      invariant n == |have| <= size && buffer[..n] == have
      invariant Deliverable(sock.pending, size)
      invariant Gather(all, size, []) == if more then Gather(sock.pending, size, have) else have
      invariant Ungathered(all, size, []) == if more then Ungathered(sock.pending, size, have) else sock.pending
      invariant n > 0 ==> CStr(buffer[..]) == CStr(have)
      invariant n == 0 ==> buffer[..] == old(buffer[..])
      decreases more, |sock.pending|
    {
      ghost var left := sock.pending;
      var total := ReceiveOnce(sock, buffer, n, size, temp, have);
      if total < 0 {
        GatherNone(size, have);
        more := false;
      } else {
        GatherStep(left, size, have);
        n := total;
        have := have + left[0][..Min(|left[0]|, size - |have|)];
        assert buffer[..][..n] == buffer[..n] == have;
        CStrIgnoresRest(have, buffer[..]);
        more := !HasTerminator(buffer[..]);
      }
    }
  }

  /** One recv, and what it brought put behind what is there; -1 when there is no more. */
  method ReceiveOnce(sock: Socket, buffer: array<byte>, n: nat, size: nat, temp: array<byte>, ghost have: Bytes)
      returns (total: int)
    requires buffer.Length == size + 1 && temp.Length == size && temp != buffer && Deliverable(sock.pending, size)
    requires n == |have| <= size && buffer[..n] == have
    modifies sock`pending, buffer, temp
    ensures total < 0 ==> old(sock.pending) == sock.pending == [] && buffer[..] == old(buffer[..])
    ensures total >= 0 ==>
              old(sock.pending) != [] && sock.pending == old(sock.pending)[1..] && total <= size
    ensures total >= 0 ==>
              var chunk := old(sock.pending)[0];
              && total == n + Min(|chunk|, size - n)
              && buffer[..total] == have + chunk[..Min(|chunk|, size - n)] && buffer[total] == NUL
  {
    ghost var chunks := sock.pending;
    var count := sock.Recv(temp);
    if count <= 0 {
      return -1;
    }
    assert temp[..count] == chunks[0];
    total := Append(buffer, n, size, temp, count);
    assert temp[..Min(count, size - n)] == chunks[0][..Min(count, size - n)];
  }

  /** Copy what was received behind what is there, and end the string. */
  method Append(buffer: array<byte>, n: nat, size: nat, temp: array<byte>, count: nat) returns (total: nat)
    requires buffer.Length == size + 1 && n <= size && count <= temp.Length && temp != buffer
    modifies buffer
    ensures total == n + Min(count, size - n)
    ensures buffer[..total] == old(buffer[..n]) + temp[..Min(count, size - n)]
    ensures buffer[total] == NUL
  {
    var take := if n + count > size then size - n else count;
    forall i | 0 <= i < take {
      buffer[n + i] := temp[i];
    }
    total := n + take;
    buffer[total] := NUL;
  }

  /** A NUL right after some bytes: the string does not see what follows. */
  lemma CStrIgnoresRest(have: Bytes, mem: Bytes)
    requires |have| < |mem| && mem[..|have|] == have && mem[|have|] == NUL
    ensures CStr(mem) == CStr(have)
    ensures HasTerminator(mem) == HasTerminator(have)
  {
    SpanIs(mem, [NUL], false, StrLen(have));
  }

  /** The strtok calls of gfserver_serve, on a copy of the buffer. */
  method ParseInPlace(buffer: array<byte>) returns (r: RequestParse)
    ensures r == ParseRequest(CStr(buffer[..]))
  {
    hide CStr, StrCmp;
    var temp := new Tokenizer(CStr(buffer[..]));
    var tok := temp.Strtok(true, BLANKS);
    if tok == None {
      return Malformed;
    }
    var scheme := temp.Read(tok.value);
    if StrCmp(scheme, SCHEME) != 0 {
      return Refused;
    }
    tok := temp.Strtok(false, BLANKS);
    if tok == None {
      return Malformed;
    }
    var verb := temp.Read(tok.value);
    if !CheckValidMethod(verb) {
      return Refused;
    }
    tok := temp.Strtok(false, FIELD_DELIMS);
    if tok == None {
      return Malformed;
    }
    var path := temp.Read(tok.value);
    r := if path[0] != SLASH then Refused else Get(path);
  }

  /** The string the server parses: what it gathered, or, if the client sent
      nothing, what the buffer still holds of the request before. */
  function Heard(chunks: seq<Bytes>, size: nat, before: Bytes): Bytes {
    var r := Gather(chunks, size, []);
    CStr(if r == [] then before else r)
  }

  /** The refusal was sent, once, and the connection took what it took of it. */
  ghost predicate RefusalSent(sends: seq<SendCall>, wire: Bytes) {
    var header := PrintHeader(GF_FILE_NOT_FOUND, 0);
    |sends| == 1 && sends[0].data == header && -1 <= sends[0].n <= |header| && wire == Taken(header, sends[0].n)
  }

  /** One connection of the sequential server, from the first recv to the end of
      the handler. A malformed request is where C would follow a NULL pointer. */
  method ServeConnection(sock: Socket, ctx: Context, buffer: array<byte>, size: nat,
      table: Content.ContentTable, kernel: Files.Kernel)
      returns (r: RequestParse, ghost io: seq<Event>, ghost t: Transfer)
    requires buffer.Length == size + 1 && size > 0 && Deliverable(sock.pending, size)
    requires table.Valid() && Content.OpenIn(table.table, kernel.fds)
    requires ctx.wire == [] && !ctx.closed && ctx.sends == []
    modifies sock, ctx, buffer, kernel
    ensures r == ParseRequest(Heard(old(sock.pending), size, old(buffer[..])))
    ensures CStr(buffer[..]) == Heard(old(sock.pending), size, old(buffer[..]))
    ensures sock.pending == Ungathered(old(sock.pending), size, [])
    ensures !r.Get? ==> kernel.fds == old(kernel.fds) && kernel.preads == old(kernel.preads) && !ctx.closed
    ensures r.Malformed? ==> ctx.sends == [] && ctx.wire == []
    ensures r.Refused? ==> RefusalSent(ctx.sends, ctx.wire)
    ensures r.Get? ==> Ran(table.table, r.path, old(kernel.fds), io, kernel.fds, t)
    ensures r.Get? ==> t.phase.Done? && ctx.wire == t.Wire() && ctx.closed == t.closed
    ensures r.Get? ==> ctx.sends == SendsOf(io) && kernel.preads == old(kernel.preads) + ReadsOf(io)
  {
    hide ParseRequest, CStr, Alone, Ran, Step, PrintHeader, Gather, SendsOf, ReadsOf;
    io, t := [], START;
    var n := GetRequest(sock, buffer, size);
    r := ParseInPlace(buffer);
    match r
    case Malformed =>
    case Refused =>
      var _ := ctx.SendHeader(GF_FILE_NOT_FOUND, 0);
    case Get(path) =>
      var _, io', t' := HandlerGet(ctx, path, table, kernel);
      io, t := io', t';
  }

  // ---- One connection after the other

  /** What a connection is answered for: its own bytes if it sent any, and the
      request heard before it if it sent none. */
  lemma HeardIs(chunks: seq<Bytes>, size: nat, before: Bytes)
    requires Deliverable(chunks, size) && size > 0
    ensures Heard(chunks, size, before) == if chunks == [] then CStr(before) else CStr(Gather(chunks, size, []))
  {
    if chunks != [] {
      GatherTakesAPrefix(chunks, size, []);
      assert |Concat(chunks)| >= |chunks[0]| > 0;
      assert !HasTerminator([]);
    }
  }

  lemma HeardOfString(chunks: seq<Bytes>, size: nat, mem: Bytes)
    ensures Heard(chunks, size, CStr(mem)) == Heard(chunks, size, mem)
  {
    CStrAgain(mem);
  }

  lemma CStrAgain(mem: Bytes)
    ensures CStr(CStr(mem)) == CStr(mem)
  {
    var s := CStr(mem);
    assert forall i | 0 <= i < |s| :: s[i] in s;
    SpanIs(s, [NUL], false, |s|);
  }

  /** The string parsed for the last of some connections, `before` being in the
      buffer when the server starts. */
  function LastHeard(requests: seq<seq<Bytes>>, size: nat, before: Bytes): (r: Bytes)
    ensures NUL !in r
  {
    if requests == [] then CStr(before)
    else Heard(requests[|requests| - 1], size, LastHeard(requests[..|requests| - 1], size, before))
  }

  /** A client that sends nothing is served the request of the client before it. */
  lemma SilentClientRepeats(requests: seq<seq<Bytes>>, size: nat, before: Bytes)
    ensures LastHeard(requests + [[]], size, before) == LastHeard(requests, size, before)
  {
    assert (requests + [[]])[..|requests|] == requests;
    var s := LastHeard(requests, size, before);
    if requests == [] {
      CStrAgain(before);
    } else {
      var last := requests[|requests| - 1];
      var r := Gather(last, size, []);
      CStrAgain(if r == [] then LastHeard(requests[..|requests| - 1], size, before) else r);
    }
  }

  type Descriptors = Files.Descriptors

  /** How a connection went: the descriptors before it and after, the parse, the
      handler's run, the calls made, and what went over the connection. */
  datatype Served = Served(
    before: Descriptors,
    r: RequestParse,
    io: seq<Event>,
    after: Descriptors,
    t: Transfer,
    sends: seq<SendCall>,
    preads: seq<Files.ReadCall>,
    wire: Bytes)

  /** A connection for which the server parsed `heard`, served as the handler
      alone serves it, on the files that were open from the start. */
  ghost predicate ServedRight(items: seq<Content.Item>, fds: Descriptors, heard: Bytes, v: Served) {
    && Files.SameFiles(v.before, fds) && v.r == ParseRequest(heard)
    && (v.r.Malformed? ==> v.sends == [] && v.preads == [] && v.wire == [])
    && (v.r.Refused? ==> RefusalSent(v.sends, v.wire) && v.preads == [])
    && (v.r.Get? ==> Ran(items, v.r.path, v.before, v.io, v.after, v.t) && v.t.phase.Done? && v.wire == v.t.Wire())
    && (v.r.Get? ==> v.sends == SendsOf(v.io) && v.preads == ReadsOf(v.io))
  }

  lemma ServedRightStays(items: seq<Content.Item>, now: Descriptors, fds: Descriptors, heard: Bytes, v: Served)
    requires ServedRight(items, now, heard, v) && Files.SameFiles(now, fds)
    ensures ServedRight(items, fds, heard, v)
  {
    hide Ran, ParseRequest, PrintHeader, RefusalSent, SendsOf, ReadsOf;
  }

  lemma NextHeard(requests: seq<seq<Bytes>>, k: nat, size: nat, before: Bytes, mem: Bytes)
    requires k < |requests| && CStr(mem) == LastHeard(requests[..k], size, before)
    ensures LastHeard(requests[..k + 1], size, before) == Heard(requests[k], size, mem)
  {
    assert requests[..k + 1][..k] == requests[..k];
    HeardOfString(requests[k], size, mem);
  }

  /** The reads made for some connections. */
  function AllReads(served: seq<Served>): seq<Files.ReadCall> {
    if served == [] then [] else AllReads(served[..|served| - 1]) + served[|served| - 1].preads
  }

  lemma AllReadsSnoc(served: seq<Served>, v: Served)
    ensures AllReads(served + [v]) == AllReads(served) + v.preads
  {
    assert (served + [v])[..|served|] == served;
  }

  /** One pass of the accept loop. */
  method ServeOne(chunks: seq<Bytes>, ctx: Context, buffer: array<byte>, size: nat,
      table: Content.ContentTable, kernel: Files.Kernel)
      returns (r: RequestParse, ghost v: Served)
    requires buffer.Length == size + 1 && size > 0 && Deliverable(chunks, size)
    requires table.Valid() && Content.OpenIn(table.table, kernel.fds)
    requires ctx.wire == [] && !ctx.closed && ctx.sends == []
    modifies ctx, buffer, kernel
    ensures v.r == r && v.sends == ctx.sends && v.wire == ctx.wire
    ensures kernel.preads == old(kernel.preads) + v.preads && Files.SameFiles(kernel.fds, old(kernel.fds))
    ensures CStr(buffer[..]) == Heard(chunks, size, old(buffer[..]))
    ensures ServedRight(table.table, old(kernel.fds), Heard(chunks, size, old(buffer[..])), v)
  {
    hide CStr, ParseRequest, Heard, PrintHeader, Alone, SendsOf, ReadsOf;
    var broken: bool := *;
    var sock := new Socket(chunks, broken);
    ghost var before, preads := kernel.fds, kernel.preads;
    ghost var io, t;
    r, io, t := ServeConnection(sock, ctx, buffer, size, table, kernel);
    assert kernel.preads == preads + kernel.preads[|preads|..];
    v := Served(before, r, io, kernel.fds, t, ctx.sends, kernel.preads[|preads|..], ctx.wire);
  }

  /** Connections on which nothing has been sent yet, from number `from` on. */
  ghost predicate Untouched(ctxs: seq<Context>, from: nat)
    reads ctxs
  {
    && (forall i, j | 0 <= i < j < |ctxs| :: ctxs[i] != ctxs[j])
    && (forall i | from <= i < |ctxs| :: ctxs[i].wire == [] && !ctxs[i].closed && ctxs[i].sends == [])
  }

  /** The accept loop, for any list of clients: each is answered for what it, or
      the last one before it to send anything, has sent. A malformed request ends
      it, since C follows a NULL pointer there; the clients behind get nothing. */
  method ServeAll(requests: seq<seq<Bytes>>, ctxs: seq<Context>, buffer: array<byte>, size: nat,
      table: Content.ContentTable, kernel: Files.Kernel)
      returns (ghost served: seq<Served>)
    requires buffer.Length == size + 1 && size > 0 && forall i | 0 <= i < |requests| :: Deliverable(requests[i], size)
    requires table.Valid() && Content.OpenIn(table.table, kernel.fds)
    requires |ctxs| == |requests| && Untouched(ctxs, 0)
    modifies ctxs, buffer, kernel
    ensures |served| <= |requests| && Untouched(ctxs, |served|)
    ensures forall i | 0 <= i < |served| :: served[i].sends == ctxs[i].sends && served[i].wire == ctxs[i].wire
    ensures forall i | 0 <= i < |served| ::
              ServedRight(table.table, old(kernel.fds), LastHeard(requests[..i + 1], size, old(buffer[..])), served[i])
    ensures kernel.preads == old(kernel.preads) + AllReads(served)
    ensures forall i | 0 <= i < |served| :: served[i].r.Malformed? ==> i == |served| - 1
    ensures |served| < |requests| ==> served != [] && served[|served| - 1].r.Malformed?
  {
    hide CStr, ParseRequest, Heard, Ran, PrintHeader, ServedRight, LastHeard, AllReads, Deliverable,
         Files.SameFiles;
    served := [];
    ghost var mem, fds, preads := buffer[..], kernel.fds, kernel.preads;
    var k, alive := 0, true;
    HeardFirst(size, mem);
    SameAsItself(fds);
    assert requests[..0] == [];
    while k < |requests| && alive
      invariant k == |served| <= |requests| && Untouched(ctxs, k)
      invariant table.Valid() && table.table == old(table.table)
      invariant Files.SameFiles(kernel.fds, fds) && Content.OpenIn(table.table, kernel.fds)
      invariant CStr(buffer[..]) == LastHeard(requests[..k], size, mem)
      invariant forall i | 0 <= i < k :: served[i].sends == ctxs[i].sends && served[i].wire == ctxs[i].wire
      invariant forall i | 0 <= i < k ::
                  ServedRight(table.table, fds, LastHeard(requests[..i + 1], size, mem), served[i])
      invariant kernel.preads == preads + AllReads(served)
      invariant forall i | 0 <= i < k :: served[i].r.Malformed? ==> i == k - 1 && !alive
      invariant !alive ==> k > 0 && served[k - 1].r.Malformed?
      decreases |requests| - k
    {
      ghost var now := kernel.fds;
      NextHeard(requests, k, size, mem, buffer[..]);
      var r;
      ghost var v;
      r, v := ServeOne(requests[k], ctxs[k], buffer, size, table, kernel);
      ServedRightStays(table.table, now, fds, LastHeard(requests[..k + 1], size, mem), v);
      Files.SameFilesOn(kernel.fds, now, fds);
      StillOpen(table.table, now, kernel.fds);
      AllReadsSnoc(served, v);
      served := served + [v];
      alive := !r.Malformed?;
      k := k + 1;
    }
  }

  lemma SameAsItself(fds: Descriptors)
    ensures Files.SameFiles(fds, fds)
  {
  }

  lemma StillOpen(items: seq<Content.Item>, now: Descriptors, after: Descriptors)
    requires Content.OpenIn(items, now) && Files.SameFiles(after, now)
    ensures Content.OpenIn(items, after)
  {
  }

  lemma HeardFirst(size: nat, before: Bytes)
    ensures LastHeard([], size, before) == CStr(before) && AllReads([]) == []
  {
  }
}
