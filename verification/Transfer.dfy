/**
 Serving one request: look the path up, send a header, and send the file chunk
 by chunk. Written twice: as a machine that takes one system call at a time,
 which any number of threads can run interleaved, and as the single-threaded
 handler's loop, which is proved to be a run of that machine.
 */
module Transfers {
  import opened Wrappers
  import opened CString
  import opened Files
  import opened Content
  import opened Decimal
  import opened Protocol

  const BUFFER_SIZE := 4096

  /** Where the handler stands, just before its next call. */
  datatype Phase =
    | Find
    | RejectHeader
    | Measure(fd: nat)
    | OkHeader(fd: nat, len: nat)
    | Read(fd: nat, len: nat, off: nat)
    | Send(fd: nat, len: nat, off: nat, chunk: Bytes)
    | Done(ret: int)

  /** What was asked of the system, and what it returned, where that is up to it. */
  datatype Event =
    | Called
    | HeaderSent(data: Bytes, n: int)
    | ReadGot(fd: nat, at: nat, room: nat, n: int)
    | Sent(data: Bytes, n: int)

  /** `head` and `body` are the bytes the connection took, of the header and
      after it; `io` is the history of events. */
  datatype Transfer = Transfer(phase: Phase, head: Bytes, body: Bytes, closed: bool, io: seq<Event>) {
    function Wire(): Bytes {
      head + body
    }
  }

  const START := Transfer(Find, [], [], false, [])

  function OkHeaderBytes(len: nat): Bytes {
    PrintHeader(GF_OK, ToInt(len))
  }

  function RejectHeaderBytes(): Bytes {
    PrintHeader(GF_FILE_NOT_FOUND, 0)
  }

  ghost predicate PhaseOk(fds: Descriptors, phase: Phase) {
    match phase
    case Find | RejectHeader | Done(_) => true
    case Measure(fd) => fd < |fds|
    case OkHeader(fd, len) => fd < |fds| && len == |fds[fd].data|
    case Read(fd, len, off) => fd < |fds| && len == |fds[fd].data| && off < len
    case Send(fd, len, off, chunk) =>
      fd < |fds| && len == |fds[fd].data| && chunk != [] && off + |chunk| <= len
  }

  /** The events the system can answer the next call with. */
  predicate Possible(phase: Phase, e: Event) {
    match phase
    case Find | Measure(_) => e == Called
    case RejectHeader => e.HeaderSent? && e.data == RejectHeaderBytes() && -1 <= e.n <= |e.data|
    case OkHeader(_, len) => e.HeaderSent? && e.data == OkHeaderBytes(len) && -1 <= e.n <= |e.data|
    case Read(fd, len, off) =>
      e.ReadGot? && e.fd == fd && e.at == off && e.room == BUFFER_SIZE && -1 <= e.n <= e.room && off + e.n <= len
    case Send(_, _, _, chunk) => e.Sent? && e.data == chunk && -1 <= e.n <= |e.data|
    case Done(_) => false
  }

  /** The part of `s` a send that returned `n` put on the wire. */
  function Taken(s: Bytes, n: int): Bytes
    requires n <= |s|
  {
    if n < 0 then [] else s[..n]
  }

  /** The test of the loop: `while (bytes_transferred < file_len)`. */
  function LoopTest(fd: nat, len: nat, off: nat): Phase {
    if off < len then Read(fd, len, off) else Done(off)
  }

  /** One call of the handler serving `path`, on the shared descriptors. */
  function Step(items: seq<Item>, path: Bytes, fds: Descriptors, t: Transfer, e: Event): (r: (Descriptors, Transfer))
    requires OpenIn(items, fds) && PhaseOk(fds, t.phase) && Possible(t.phase, e)
    ensures SameFiles(r.0, fds) && OpenIn(items, r.0) && PhaseOk(r.0, r.1.phase)
    ensures r.1.io == t.io + [e]
  {
    var u := t.(io := t.io + [e]);
    match t.phase
    case Find =>
      var fd := Content.Lookup(items, path);
      if fd < 0 then (fds, u.(phase := RejectHeader)) else (SeekStart(fds, fd), u.(phase := Measure(fd)))
    case RejectHeader =>
      (fds, u.(phase := Done(e.n), head := Taken(RejectHeaderBytes(), e.n)))
    case Measure(fd) =>
      var after := SeekEnd(fds, fd);
      (after, u.(phase := OkHeader(fd, after[fd].offset)))
    case OkHeader(fd, len) =>
      (fds, u.(phase := LoopTest(fd, len, 0), head := Taken(OkHeaderBytes(len), e.n)))
    case Read(fd, len, off) =>
      if e.n <= 0 then (fds, u.(phase := Done(-1), closed := true))
      else (fds, u.(phase := Send(fd, len, off, PreadBytes(fds, fd, e.n, off))))
    case Send(fd, len, off, chunk) =>
      var v := u.(body := t.body + Taken(chunk, e.n));
      if e.n != |chunk| then (fds, v.(phase := Done(-1), closed := true))
      else (fds, v.(phase := LoopTest(fd, len, off + e.n)))
  }

  /** None if the system could not have answered so. */
  function TryStep(items: seq<Item>, path: Bytes, fds: Descriptors, t: Transfer, e: Event)
      : (r: Option<(Descriptors, Transfer)>)
    requires OpenIn(items, fds) && PhaseOk(fds, t.phase)
    ensures r.Some? ==> SameFiles(r.value.0, fds) && OpenIn(items, r.value.0)
    ensures r.Some? ==> PhaseOk(r.value.0, r.value.1.phase)
  {
    if Possible(t.phase, e) then Some(Step(items, path, fds, t, e)) else None
  }

  /** The handler run alone from descriptors `fds`, with the given answers. */
  function Alone(items: seq<Item>, path: Bytes, fds: Descriptors, io: seq<Event>): (r: Option<(Descriptors, Transfer)>)
    requires OpenIn(items, fds)
    ensures r.Some? ==> SameFiles(r.value.0, fds) && OpenIn(items, r.value.0)
    ensures r.Some? ==> PhaseOk(r.value.0, r.value.1.phase)
    decreases |io|
  {
    if io == [] then Some((fds, START))
    else
      match Alone(items, path, fds, io[..|io| - 1])
      case None => None
      case Some((now, t)) => TryStep(items, path, now, t, io[|io| - 1])
  }

  /** The bytes and the outcome of a step depend on the files, not on the
      offsets that other threads move. */
  lemma StepIgnoresOffsets(items: seq<Item>, path: Bytes, a: Descriptors, b: Descriptors, t: Transfer, e: Event)
    requires SameFiles(a, b) && OpenIn(items, a) && PhaseOk(a, t.phase) && Possible(t.phase, e)
    ensures OpenIn(items, b) && PhaseOk(b, t.phase)
    ensures Step(items, path, a, t, e).1 == Step(items, path, b, t, e).1
  {
  }

  /** The file a path is mapped to, if any. */
  function FileOf(items: seq<Item>, fds: Descriptors, path: Bytes): Option<Bytes>
    requires OpenIn(items, fds)
  {
    var fd := Content.Lookup(items, path);
    if fd < 0 then None else Some(fds[fd].data)
  }

  /** How much of the header the connection took; None if it was never sent. */
  function HeaderAnswer(io: seq<Event>): Option<int> {
    if io == [] then None
    else if io[|io| - 1].HeaderSent? then Some(io[|io| - 1].n)
    else HeaderAnswer(io[..|io| - 1])
  }

  lemma HeaderAnswerSnoc(io: seq<Event>, e: Event)
    ensures HeaderAnswer(io + [e]) == if e.HeaderSent? then Some(e.n) else HeaderAnswer(io)
  {
    assert (io + [e])[..|io|] == io;
  }

  /** The header a request is answered with. */
  function FullHeader(file: Option<Bytes>): Bytes {
    match file
    case None => RejectHeaderBytes()
    case Some(data) => OkHeaderBytes(|data|)
  }

  /** All that a request is answered with, when nothing goes wrong. */
  function Response(file: Option<Bytes>): Bytes {
    FullHeader(file) + (if file.Some? then file.value else [])
  }

  /** The header has been sent, once, and `head` is what was taken of it. */
  ghost predicate HeaderDone(t: Transfer, header: Bytes) {
    var n := HeaderAnswer(t.io);
    n.Some? && n.value <= |header| && t.head == Taken(header, n.value)
  }

  ghost predicate HeaderToCome(t: Transfer) {
    HeaderAnswer(t.io) == None && t.head == t.body == [] && !t.closed
  }

  /** At every point of a run, and for every pattern of short reads and writes,
      what is on the wire is a prefix of the response: a prefix of the header,
      and a prefix of the file of exactly the bytes counted so far. */
  ghost predicate OnTrack(items: seq<Item>, fds: Descriptors, path: Bytes, t: Transfer)
    requires OpenIn(items, fds)
  {
    var file := FileOf(items, fds, path);
    match t.phase
    case Find => HeaderToCome(t)
    case RejectHeader => file == None && HeaderToCome(t)
    case Measure(fd) => fd == Content.Lookup(items, path) && HeaderToCome(t)
    case OkHeader(fd, len) => fd == Content.Lookup(items, path) && len == |fds[fd].data| && HeaderToCome(t)
    case Read(fd, len, off) =>
      && fd == Content.Lookup(items, path) && len == |fds[fd].data| && off < len
      && HeaderDone(t, OkHeaderBytes(len)) && t.body == fds[fd].data[..off] && !t.closed
    case Send(fd, len, off, chunk) =>
      && fd == Content.Lookup(items, path) && len == |fds[fd].data| && off + |chunk| <= len && chunk != []
      && HeaderDone(t, OkHeaderBytes(len)) && t.body == fds[fd].data[..off] && !t.closed
      && chunk == fds[fd].data[off..off + |chunk|]
    case Done(ret) => Finished(file, t, ret)
  }

  /** The outcome of a finished request. A file is answered with its length
      exactly when all of it was sent; otherwise with -1 on a closed connection
      after a proper prefix. */
  ghost predicate Finished(file: Option<Bytes>, t: Transfer, ret: int) {
    && HeaderDone(t, FullHeader(file))
    && match file
       case None => HeaderAnswer(t.io) == Some(ret) && t.body == [] && !t.closed
       case Some(data) =>
         && t.body <= data
         && (t.body == data <==> ret == |data|)
         && (t.body == data <==> !t.closed)
         && (t.body != data ==> ret == -1)
  }

  lemma StepStaysOnTrack(items: seq<Item>, path: Bytes, fds: Descriptors, t: Transfer, e: Event)
    requires OpenIn(items, fds) && PhaseOk(fds, t.phase) && Possible(t.phase, e)
    requires OnTrack(items, fds, path, t)
    ensures OnTrack(items, Step(items, path, fds, t, e).0, path, Step(items, path, fds, t, e).1)
  {
    hide Lookup, PrintHeader, HeaderAnswer;
    HeaderAnswerSnoc(t.io, e);
    match t.phase
    case Send(fd, len, off, chunk) => SendStaysOnTrack(items, path, fds, t, e);
    case OkHeader(fd, len) =>
      assert fds[fd].data[..0] == [];
    case _ =>
  }

  lemma SendStaysOnTrack(items: seq<Item>, path: Bytes, fds: Descriptors, t: Transfer, e: Event)
    requires OpenIn(items, fds) && PhaseOk(fds, t.phase) && Possible(t.phase, e)
    requires t.phase.Send? && OnTrack(items, fds, path, t)
    ensures OnTrack(items, Step(items, path, fds, t, e).0, path, Step(items, path, fds, t, e).1)
  {
    hide Lookup, PrintHeader, HeaderAnswer;
    HeaderAnswerSnoc(t.io, e);
    var Send(fd, len, off, chunk) := t.phase;
    var data := fds[fd].data;
    if e.n > 0 {
      assert data[..off] + chunk[..e.n] == data[..off + e.n];
    } else {
      assert t.body + [] == t.body;
    }
    assert data[..len] == data;
  }

  /** ... so on every run of the handler. */
  lemma {:induction false} AloneStaysOnTrack(items: seq<Item>, path: Bytes, fds: Descriptors, io: seq<Event>)
    requires OpenIn(items, fds) && Alone(items, path, fds, io).Some?
    ensures OnTrack(items, fds, path, Alone(items, path, fds, io).value.1)
    decreases |io|
  {
    if io != [] {
      AloneStaysOnTrack(items, path, fds, io[..|io| - 1]);
      var (now, t) := Alone(items, path, fds, io[..|io| - 1]).value;
      OnTrackIgnoresOffsets(items, path, fds, now, t);
      StepStaysOnTrack(items, path, now, t, io[|io| - 1]);
      var (after, u) := Step(items, path, now, t, io[|io| - 1]);
      OnTrackIgnoresOffsets(items, path, after, fds, u);
    }
  }

  lemma OnTrackIgnoresOffsets(items: seq<Item>, path: Bytes, a: Descriptors, b: Descriptors, t: Transfer)
    requires SameFiles(a, b) && OpenIn(items, a) && OnTrack(items, a, path, t)
    ensures OpenIn(items, b) && OnTrack(items, b, path, t)
  {
  }

  // ---- When the system does all it is asked

  /** All of the data taken, or something read. */
  predicate FullAnswer(e: Event) {
    match e
    case Called => true
    case HeaderSent(data, n) => n == |data|
    case ReadGot(_, _, _, n) => n > 0
    case Sent(data, n) => n == |data|
  }

  ghost predicate FaultFree(io: seq<Event>) {
    forall i | 0 <= i < |io| :: FullAnswer(io[i])
  }

  lemma FaultFreeSnoc(io: seq<Event>, e: Event)
    ensures FaultFree(io + [e]) <==> FaultFree(io) && FullAnswer(e)
  {
    assert (io + [e])[..|io|] == io;
    assert FaultFree(io + [e]) ==> FullAnswer((io + [e])[|io|]);
    assert forall i | 0 <= i < |io| :: (io + [e])[i] == io[i];
  }

  ghost predicate Whole(file: Option<Bytes>, t: Transfer) {
    !t.closed && (HeaderAnswer(t.io).Some? ==> HeaderAnswer(t.io) == Some(|FullHeader(file)|))
  }

  /** One call, on track: all is well after it exactly when it was before, and it got a full answer. */
  lemma WholeStep(items: seq<Item>, path: Bytes, fds: Descriptors, t: Transfer, e: Event)
    requires OpenIn(items, fds) && PhaseOk(fds, t.phase) && Possible(t.phase, e)
    requires OnTrack(items, fds, path, t)
    ensures var file := FileOf(items, fds, path);
            Whole(file, Step(items, path, fds, t, e).1) <==> Whole(file, t) && FullAnswer(e)
  {
    hide Lookup, PrintHeader, HeaderAnswer;
    HeaderAnswerSnoc(t.io, e);
  }

  /** A run is whole so far exactly when nothing went wrong. */
  lemma {:induction false} WholeIsFaultFree(items: seq<Item>, path: Bytes, fds: Descriptors, io: seq<Event>)
    requires OpenIn(items, fds) && Alone(items, path, fds, io).Some?
    ensures Whole(FileOf(items, fds, path), Alone(items, path, fds, io).value.1) <==> FaultFree(io)
    decreases |io|
  {
    hide Lookup, Whole, FaultFree, FullAnswer, Step, OnTrack, Possible, PhaseOk;
    if io == [] {
      StartIsWhole(FileOf(items, fds, path));
    } else {
      var before, e := io[..|io| - 1], io[|io| - 1];
      assert io == before + [e];
      WholeIsFaultFree(items, path, fds, before);
      FaultFreeSnoc(before, e);
      AloneStaysOnTrack(items, path, fds, before);
      var (now, t) := Alone(items, path, fds, before).value;
      OnTrackIgnoresOffsets(items, path, fds, now, t);
      SameFileOf(items, path, fds, now);
      WholeStep(items, path, now, t, e);
    }
  }

  lemma SameFileOf(items: seq<Item>, path: Bytes, a: Descriptors, b: Descriptors)
    requires SameFiles(a, b) && OpenIn(items, a) && OpenIn(items, b)
    ensures FileOf(items, a, path) == FileOf(items, b, path)
  {
  }

  lemma StartIsWhole(file: Option<Bytes>)
    ensures Whole(file, START) && FaultFree([])
  {
  }

  /** A run without short writes or failed reads, in whatever chunks it reads,
      puts exactly the response on the wire: the header, and all of the file. */
  lemma FaultFreeSendsAll(items: seq<Item>, path: Bytes, fds: Descriptors, io: seq<Event>)
    requires OpenIn(items, fds) && Alone(items, path, fds, io).Some? && FaultFree(io)
    requires Alone(items, path, fds, io).value.1.phase.Done?
    ensures var t := Alone(items, path, fds, io).value.1; var file := FileOf(items, fds, path);
            && t.Wire() == Response(file)
            && t.phase.ret == (if file.Some? then |file.value| else |FullHeader(file)|)
            && !t.closed
  {
    WholeIsFaultFree(items, path, fds, io);
    AloneStaysOnTrack(items, path, fds, io);
    hide Alone, FaultFree, Lookup, PrintHeader, HeaderAnswer;
    var header := FullHeader(FileOf(items, fds, path));
    assert Taken(header, |header|) == header;
  }

  /** The whole response is on the wire at the end of a run if and only if the
      system did all it was asked at every call. */
  lemma WholeResponse(items: seq<Item>, path: Bytes, fds: Descriptors, io: seq<Event>)
    requires OpenIn(items, fds) && Alone(items, path, fds, io).Some?
    requires Alone(items, path, fds, io).value.1.phase.Done?
    ensures Alone(items, path, fds, io).value.1.Wire() == Response(FileOf(items, fds, path))
            <==> FaultFree(io)
  {
    var file, t := FileOf(items, fds, path), Alone(items, path, fds, io).value.1;
    AloneStaysOnTrack(items, path, fds, io);
    if FaultFree(io) {
      FaultFreeSendsAll(items, path, fds, io);
    } else if t.Wire() == Response(file) {
      hide Alone, FaultFree, Lookup, PrintHeader, HeaderAnswer;
      WholeWire(FullHeader(file), if file.Some? then file.value else [], t.head, t.body);
      WholeIsFaultFree(items, path, fds, io);
    }
  }

  /** Two parts cut short make up the whole only if neither is. */
  lemma WholeWire(header: Bytes, data: Bytes, head: Bytes, body: Bytes)
    requires head <= header && body <= data && head + body == header + data
    ensures head == header && body == data
  {
    assert |head| + |body| == |head + body| == |header| + |data|;
  }

  /** A run takes down its history. */
  lemma {:induction false} AloneRecords(items: seq<Item>, path: Bytes, fds: Descriptors, io: seq<Event>)
    requires OpenIn(items, fds) && Alone(items, path, fds, io).Some?
    ensures Alone(items, path, fds, io).value.1.io == io
    decreases |io|
  {
    hide Step, Possible, PhaseOk, OpenIn, SameFiles;
    if io != [] {
      AloneRecords(items, path, fds, io[..|io| - 1]);
      assert io[..|io| - 1] + [io[|io| - 1]] == io;
    }
  }

  /** Steps a request still has before it, at most. */
  function Remaining(phase: Phase, len: nat): nat {
    match phase
    case Find => 2 * len + 4
    case Measure(_) => 2 * len + 3
    case OkHeader(_, n) => 2 * n + 2
    case Read(_, n, off) => if off < n then 2 * (n - off) else 0
    case Send(_, n, off, _) => if off < n then 2 * (n - off) - 1 else 0
    case RejectHeader => 1
    case Done(_) => 0
  }

  function LengthOf(items: seq<Item>, fds: Descriptors, path: Bytes): nat
    requires OpenIn(items, fds)
  {
    match FileOf(items, fds, path)
    case None => 0
    case Some(data) => |data|
  }

  /** Every call brings the end of the request nearer. */
  lemma StepProgresses(items: seq<Item>, path: Bytes, fds: Descriptors, t: Transfer, e: Event)
    requires OpenIn(items, fds) && PhaseOk(fds, t.phase) && Possible(t.phase, e)
    requires OnTrack(items, fds, path, t)
    ensures var len := LengthOf(items, fds, path);
            Remaining(Step(items, path, fds, t, e).1.phase, len) < Remaining(t.phase, len)
  {
  }

  /** A full answer is possible for every call of an unfinished request. */
  lemma FullAnswerIsPossible(fds: Descriptors, phase: Phase) returns (e: Event)
    requires PhaseOk(fds, phase) && !phase.Done?
    ensures Possible(phase, e) && FullAnswer(e)
  {
    e := match phase
      case Find | Measure(_) => Called
      case RejectHeader => HeaderSent(RejectHeaderBytes(), |RejectHeaderBytes()|)
      case OkHeader(_, len) => HeaderSent(OkHeaderBytes(len), |OkHeaderBytes(len)|)
      case Read(fd, _, off) => ReadGot(fd, off, BUFFER_SIZE, 1)
      case Send(_, _, _, chunk) => Sent(chunk, |chunk|);
  }

  // ---- The single-threaded handler

  /** A call of send, with what it returned. */
  datatype SendCall = SendCall(data: Bytes, n: int)

  /** The calls of send, and of pread, in a history. */
  function SendsOf(io: seq<Event>): seq<SendCall> {
    if io == [] then []
    else
      var e := io[|io| - 1];
      SendsOf(io[..|io| - 1]) + (if e.HeaderSent? || e.Sent? then [SendCall(e.data, e.n)] else [])
  }

  function ReadsOf(io: seq<Event>): seq<ReadCall> {
    if io == [] then []
    else
      var e := io[|io| - 1];
      ReadsOf(io[..|io| - 1]) + (if e.ReadGot? then [ReadCall(e.fd, e.at, e.room, e.n)] else [])
  }

  lemma CallsSnoc(io: seq<Event>, e: Event)
    ensures SendsOf(io + [e]) == SendsOf(io) + (if e.HeaderSent? || e.Sent? then [SendCall(e.data, e.n)] else [])
    ensures ReadsOf(io + [e]) == ReadsOf(io) + (if e.ReadGot? then [ReadCall(e.fd, e.at, e.room, e.n)] else [])
  {
    assert (io + [e])[..|io|] == io;
  }

  /** Every send took all it was given, and every read got something. */
  ghost predicate AllFull(sends: seq<SendCall>, preads: seq<ReadCall>) {
    && (forall i | 0 <= i < |sends| :: sends[i].n == |sends[i].data|)
    && (forall i | 0 <= i < |preads| :: preads[i].n > 0)
  }

  /** No call fell short: said of the history, and of the calls recorded. */
  lemma {:induction false} FaultFreeIs(io: seq<Event>)
    ensures FaultFree(io) <==> AllFull(SendsOf(io), ReadsOf(io))
    decreases |io|
  {
    if io != [] {
      var before, e := io[..|io| - 1], io[|io| - 1];
      assert io == before + [e];
      FaultFreeIs(before);
      FaultFreeSnoc(before, e);
      hide FaultFree;
      AllFullSnoc(SendsOf(before), ReadsOf(before), e);
    }
  }

  lemma AllFullSnoc(sends: seq<SendCall>, preads: seq<ReadCall>, e: Event)
    ensures var sends' := sends + (if e.HeaderSent? || e.Sent? then [SendCall(e.data, e.n)] else []);
            var preads' := preads + (if e.ReadGot? then [ReadCall(e.fd, e.at, e.room, e.n)] else []);
            AllFull(sends', preads') <==> AllFull(sends, preads) && FullAnswer(e)
  {
    var sends' := sends + (if e.HeaderSent? || e.Sent? then [SendCall(e.data, e.n)] else []);
    var preads' := preads + (if e.ReadGot? then [ReadCall(e.fd, e.at, e.room, e.n)] else []);
    if AllFull(sends', preads') {
      assert forall i | 0 <= i < |sends| :: sends'[i] == sends[i];
      assert forall i | 0 <= i < |preads| :: preads'[i] == preads[i];
      assert |sends'| > |sends| ==> sends'[|sends|] == SendCall(e.data, e.n);
      assert |preads'| > |preads| ==> preads'[|preads|].n == e.n;
    }
  }

  /** A connection, as the server library sees it. `sends` records the calls of send. */
  class Context {
    var wire: Bytes
    var closed: bool
    ghost var sends: seq<SendCall>

    /** As accept leaves it. */
    constructor ()
      ensures wire == [] && !closed && sends == []
    {
      wire, closed, sends := [], false, [];
    }

    /** send: an error, or as many of the bytes as the connection takes. */
    method Send(data: Bytes) returns (n: int)
      modifies this
      ensures -1 <= n <= |data|
      ensures wire == old(wire) + Taken(data, n) && closed == old(closed)
      ensures sends == old(sends) + [SendCall(data, n)]
    {
      assert -1 <= -1 <= |data|;
      n :| -1 <= n <= |data|;
      wire, sends := wire + Taken(data, n), sends + [SendCall(data, n)];
    }

    /** gfs_sendheader. */
    method SendHeader(status: int, length: nat) returns (n: int)
      modifies this
      ensures -1 <= n <= |PrintHeader(status, ToInt(length))|
      ensures wire == old(wire) + Taken(PrintHeader(status, ToInt(length)), n) && closed == old(closed)
      ensures sends == old(sends) + [SendCall(PrintHeader(status, ToInt(length)), n)]
    {
      n := Send(PrintHeader(status, ToInt(length)));
    }

    /** gfs_abort. */
    method Abort()
      modifies this
      ensures closed && wire == old(wire) && sends == old(sends)
    {
      closed := true;
    }
  }

  /** The machine, run alone from `fds` with the answers `io`, has come to `now` and `t`. */
  ghost predicate Ran(items: seq<Item>, path: Bytes, fds: Descriptors, io: seq<Event>, now: Descriptors, t: Transfer) {
    OpenIn(items, fds) && Alone(items, path, fds, io) == Some((now, t))
  }

  /** Note one more answer in the history of a run. */
  lemma RanOn(items: seq<Item>, path: Bytes, fds: Descriptors, io: seq<Event>, now: Descriptors, t: Transfer, e: Event)
    requires Ran(items, path, fds, io, now, t) && Possible(t.phase, e)
    ensures OpenIn(items, now) && PhaseOk(now, t.phase)
    ensures Ran(items, path, fds, io + [e], Step(items, path, now, t, e).0, Step(items, path, now, t, e).1)
  {
    assert (io + [e])[..|io|] == io;
  }

  lemma RanFind(items: seq<Item>, path: Bytes, fds: Descriptors)
    requires OpenIn(items, fds)
    ensures var fd := Lookup(items, path);
            if fd < 0 then Ran(items, path, fds, [Called], fds, Transfer(RejectHeader, [], [], false, [Called]))
            else
              && fd < |fds|
              && Ran(items, path, fds, [Called], SeekStart(fds, fd), Transfer(Measure(fd), [], [], false, [Called]))
  {
    assert Ran(items, path, fds, [], fds, START);
    RanOn(items, path, fds, [], fds, START, Called);
    assert [] + [Called] == [Called];
  }

  lemma RanReject(items: seq<Item>, path: Bytes, fds: Descriptors, n: int)
    requires Ran(items, path, fds, [Called], fds, Transfer(RejectHeader, [], [], false, [Called]))
    requires -1 <= n <= |RejectHeaderBytes()|
    ensures var io := [Called, HeaderSent(RejectHeaderBytes(), n)];
            && Ran(items, path, fds, io, fds, Transfer(Done(n), Taken(RejectHeaderBytes(), n), [], false, io))
            && SendsOf(io) == [SendCall(RejectHeaderBytes(), n)] && ReadsOf(io) == []
  {
    var e := HeaderSent(RejectHeaderBytes(), n);
    RanOn(items, path, fds, [Called], fds, Transfer(RejectHeader, [], [], false, [Called]), e);
    assert [Called] + [e] == [Called, e] && [] + [Called] == [Called];
    CallsSnoc([], Called);
    CallsSnoc([Called], e);
  }

  lemma RanHeader(items: seq<Item>, path: Bytes, fds: Descriptors, now: Descriptors, fd: nat, n: int)
    requires Ran(items, path, fds, [Called], now, Transfer(Measure(fd), [], [], false, [Called]))
    requires fd < |now| && -1 <= n <= |OkHeaderBytes(|now[fd].data|)|
    ensures var len := |now[fd].data|; var io := [Called, Called, HeaderSent(OkHeaderBytes(len), n)];
            && Ran(items, path, fds, io, SeekEnd(now, fd),
                 Transfer(LoopTest(fd, len, 0), Taken(OkHeaderBytes(len), n), [], false, io))
            && SendsOf(io) == [SendCall(OkHeaderBytes(len), n)] && ReadsOf(io) == []
  {
    var t := Transfer(Measure(fd), [], [], false, [Called]);
    RanOn(items, path, fds, [Called], now, t, Called);
    assert [Called] + [Called] == [Called, Called] && [] + [Called] == [Called];
    var u := Step(items, path, now, t, Called).1;
    var e := HeaderSent(OkHeaderBytes(|now[fd].data|), n);
    RanOn(items, path, fds, [Called, Called], SeekEnd(now, fd), u, e);
    assert [Called, Called] + [e] == [Called, Called, e];
    CallsSnoc([], Called);
    CallsSnoc([Called], Called);
    CallsSnoc([Called, Called], e);
  }

  /** One pass of the loop that breaks off after a failed read. */
  lemma RanBadRead(items: seq<Item>, path: Bytes, fds: Descriptors, io: seq<Event>, now: Descriptors, t: Transfer,
      fd: nat, len: nat, off: nat, r: int)
    requires Ran(items, path, fds, io, now, t) && t.phase == Read(fd, len, off) && -1 <= r <= 0 && off <= len
    ensures var e := ReadGot(fd, off, BUFFER_SIZE, r);
            && Ran(items, path, fds, io + [e], now, t.(phase := Done(-1), closed := true, io := t.io + [e]))
            && SendsOf(io + [e]) == SendsOf(io)
            && ReadsOf(io + [e]) == ReadsOf(io) + [ReadCall(fd, off, BUFFER_SIZE, r)]
  {
    RanOn(items, path, fds, io, now, t, ReadGot(fd, off, BUFFER_SIZE, r));
    CallsSnoc(io, ReadGot(fd, off, BUFFER_SIZE, r));
  }

  /** The first half of a pass: a read that got something. */
  lemma RanRead(items: seq<Item>, path: Bytes, fds: Descriptors, io: seq<Event>, now: Descriptors, t: Transfer,
      fd: nat, len: nat, off: nat, r: nat)
    requires Ran(items, path, fds, io, now, t) && t.phase == Read(fd, len, off)
    requires 0 < r <= BUFFER_SIZE && off + r <= len && fd < |now| && len == |now[fd].data|
    ensures var e := ReadGot(fd, off, BUFFER_SIZE, r);
            Ran(items, path, fds, io + [e], now,
              t.(phase := Send(fd, len, off, PreadBytes(now, fd, r, off)), io := t.io + [e]))
  {
    hide Alone;
    RanOn(items, path, fds, io, now, t, ReadGot(fd, off, BUFFER_SIZE, r));
  }

  /** The second half: the send of what was read. */
  lemma RanSend(items: seq<Item>, path: Bytes, fds: Descriptors, io: seq<Event>, now: Descriptors, t: Transfer,
      fd: nat, len: nat, off: nat, chunk: Bytes, w: int)
    requires Ran(items, path, fds, io, now, t) && t.phase == Send(fd, len, off, chunk) && -1 <= w <= |chunk|
    ensures var f := Sent(chunk, w);
            var u := t.(body := t.body + Taken(chunk, w), io := t.io + [f]);
            Ran(items, path, fds, io + [f], now,
              if w == |chunk| then u.(phase := LoopTest(fd, len, off + w)) else u.(phase := Done(-1), closed := true))
  {
    hide Alone;
    RanOn(items, path, fds, io, now, t, Sent(chunk, w));
  }

  /** One pass of the loop that reads `r` bytes and sends `w` of them. */
  lemma RanPass(items: seq<Item>, path: Bytes, fds: Descriptors, io: seq<Event>, now: Descriptors, t: Transfer,
      fd: nat, len: nat, off: nat, r: nat, w: int)
    requires Ran(items, path, fds, io, now, t) && t.phase == Read(fd, len, off)
    requires 0 < r <= BUFFER_SIZE && off + r <= len && -1 <= w <= r
    requires fd < |now| && len == |now[fd].data|
    ensures var chunk := PreadBytes(now, fd, r, off);
            var e, f := ReadGot(fd, off, BUFFER_SIZE, r), Sent(chunk, w);
            var u := t.(body := t.body + Taken(chunk, w), io := t.io + [e] + [f]);
            && Ran(items, path, fds, io + [e] + [f], now,
                 if w == r then u.(phase := LoopTest(fd, len, off + r)) else u.(phase := Done(-1), closed := true))
            && SendsOf(io + [e] + [f]) == SendsOf(io) + [SendCall(chunk, w)]
            && ReadsOf(io + [e] + [f]) == ReadsOf(io) + [ReadCall(fd, off, BUFFER_SIZE, r)]
  {
    hide SendsOf, ReadsOf, Ran;
    var chunk := PreadBytes(now, fd, r, off);
    var e, f := ReadGot(fd, off, BUFFER_SIZE, r), Sent(chunk, w);
    CallsOfPass(io, e, f);
    RanRead(items, path, fds, io, now, t, fd, len, off, r);
    var u := t.(phase := Send(fd, len, off, chunk), io := t.io + [e]);
    RanSend(items, path, fds, io + [e], now, u, fd, len, off, chunk, w);
  }

  lemma CallsOfPass(io: seq<Event>, e: Event, f: Event)
    requires e.ReadGot? && f.Sent?
    ensures SendsOf(io + [e] + [f]) == SendsOf(io) + [SendCall(f.data, f.n)]
    ensures ReadsOf(io + [e] + [f]) == ReadsOf(io) + [ReadCall(e.fd, e.at, e.room, e.n)]
  {
    CallsSnoc(io, e);
    CallsSnoc(io + [e], f);
  }

  /** The handler: its loop does what the machine does alone. The calls it makes
      are those of the machine, in order; when none of them falls short, and only
      then, the whole response is on the wire, and the length is returned. */
  method HandlerGet(ctx: Context, path: Bytes, table: ContentTable, kernel: Kernel)
      returns (ret: int, ghost io: seq<Event>, ghost t: Transfer)
    requires table.Valid() && OpenIn(table.table, kernel.fds)
    requires ctx.wire == [] && !ctx.closed
    modifies ctx, kernel
    ensures Ran(table.table, path, old(kernel.fds), io, kernel.fds, t)
    ensures t.phase == Done(ret) && ctx.wire == t.Wire() && ctx.closed == t.closed
    ensures ctx.sends == old(ctx.sends) + SendsOf(io) && kernel.preads == old(kernel.preads) + ReadsOf(io)
    ensures var file := FileOf(table.table, old(kernel.fds), path);
            && (AllFull(SendsOf(io), ReadsOf(io)) <==> ctx.wire == Response(file))
            && (AllFull(SendsOf(io), ReadsOf(io)) && file.Some? ==> ret == |file.value| && !ctx.closed)
  {
    ret, io, t := HandlerRun(ctx, path, table, kernel);
    FaultFreeIs(io);
    WholeResponse(table.table, path, old(kernel.fds), io);
    if FaultFree(io) {
      FaultFreeSendsAll(table.table, path, old(kernel.fds), io);
    }
  }

  method HandlerRun(ctx: Context, path: Bytes, table: ContentTable, kernel: Kernel)
      returns (ret: int, ghost io: seq<Event>, ghost t: Transfer)
    requires table.Valid() && OpenIn(table.table, kernel.fds)
    requires ctx.wire == [] && !ctx.closed
    modifies ctx, kernel
    ensures Ran(table.table, path, old(kernel.fds), io, kernel.fds, t)
    ensures t.phase == Done(ret) && ctx.wire == t.Wire() && ctx.closed == t.closed
    ensures ctx.sends == old(ctx.sends) + SendsOf(io) && kernel.preads == old(kernel.preads) + ReadsOf(io)
  {
    hide Alone, Step, Lookup, PrintHeader, SendsOf, ReadsOf;
    ghost var fds := kernel.fds;
    ghost var items := table.table;
    RanFind(items, path, fds);
    var fd := table.Get(path, kernel);
    if fd < 0 {
      ret := ctx.SendHeader(GF_FILE_NOT_FOUND, 0);
      RanReject(items, path, fds, ret);
      io := [Called, HeaderSent(RejectHeaderBytes(), ret)];
      t := Transfer(Done(ret), Taken(RejectHeaderBytes(), ret), [], false, io);
      return;
    }
    ghost var now := kernel.fds;
    var fileLen := kernel.LseekEnd(fd);
    var n := ctx.SendHeader(GF_OK, fileLen);
    RanHeader(items, path, fds, now, fd, n);
    io := [Called, Called, HeaderSent(OkHeaderBytes(fileLen), n)];
    t := Transfer(LoopTest(fd, fileLen, 0), Taken(OkHeaderBytes(fileLen), n), [], false, io);
    ret, io, t := SendChunks(ctx, path, items, kernel, fd, fileLen, fds, io, t, old(ctx.sends), old(kernel.preads));
  }

  /** The transfer loop of the handler. */
  method SendChunks(ctx: Context, path: Bytes, ghost items: seq<Item>, kernel: Kernel, fd: nat, fileLen: nat,
      ghost fds: Descriptors, ghost io0: seq<Event>, ghost t0: Transfer,
      ghost sends: seq<SendCall>, ghost preads: seq<ReadCall>)
      returns (ret: int, ghost io: seq<Event>, ghost t: Transfer)
    requires Ran(items, path, fds, io0, kernel.fds, t0)
    requires fd < |kernel.fds| && fileLen == |kernel.fds[fd].data|
    requires t0.phase == LoopTest(fd, fileLen, 0)
    requires ctx.wire == t0.Wire() && !ctx.closed && !t0.closed
    requires ctx.sends == sends + SendsOf(io0) && kernel.preads == preads + ReadsOf(io0)
    modifies ctx, kernel`preads
    ensures Ran(items, path, fds, io, kernel.fds, t)
    ensures t.phase == Done(ret) && ctx.wire == t.Wire() && ctx.closed == t.closed
    ensures ctx.sends == sends + SendsOf(io) && kernel.preads == preads + ReadsOf(io)
  {
    hide Alone, Step, Ran, PreadBytes, SendsOf, ReadsOf;
    io, t := io0, t0;
    var buffer := new byte[BUFFER_SIZE];
    ret := 0;
    while ret < fileLen
      invariant 0 <= ret <= fileLen
      invariant Ran(items, path, fds, io, kernel.fds, t)
      invariant t.phase == LoopTest(fd, fileLen, ret)
      invariant ctx.wire == t.Wire() && !ctx.closed && !t.closed
      invariant ctx.sends == sends + SendsOf(io) && kernel.preads == preads + ReadsOf(io)
      decreases fileLen - ret
    {
      var readLen := kernel.Pread(fd, buffer, ret);
      ghost var e := ReadGot(fd, ret, BUFFER_SIZE, readLen);
      if readLen <= 0 {
        RanBadRead(items, path, fds, io, kernel.fds, t, fd, fileLen, ret, readLen);
        io, t := io + [e], t.(phase := Done(-1), closed := true, io := t.io + [e]);
        ctx.Abort();
        ret := -1;
        return;
      }
      ghost var chunk := buffer[..readLen];
      var writeLen := ctx.Send(buffer[..readLen]);
      RanPass(items, path, fds, io, kernel.fds, t, fd, fileLen, ret, readLen, writeLen);
      ghost var f := Sent(chunk, writeLen);
      io := io + [e] + [f];
      t := t.(body := t.body + Taken(chunk, writeLen), io := t.io + [e] + [f]);
      if writeLen != readLen {
        t := t.(phase := Done(-1), closed := true);
        ctx.Abort();
        ret := -1;
        return;
      }
      t := t.(phase := LoopTest(fd, fileLen, ret + writeLen));
      ret := ret + writeLen;
    }
  }
}
