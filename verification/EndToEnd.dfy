/**
 From the content list to the bytes the client writes: list loaded, request
 printed, cut up, gathered, parsed, served by the sequential server or by some
 worker among others, cut up again, and received.
 */
module EndToEnd {
  import opened Wrappers
  import opened CString
  import opened Decimal
  import opened Protocol
  import opened Network
  import opened Files
  import opened Content
  import opened Transfers
  import opened BossWorker
  import opened Liveness
  import opened Server
  import opened Client

  const BUFSIZ := 8192 // the size of the server's request buffer (glibc)
  const OFF_VALUES := 0x8000_0000_0000_0000 // a file is shorter than this: off_t is a signed 64-bit type

  // ---- The response

  /** What the length goes through on its way: (int) on the server, "%d",
      atoi, and (size_t) on the client. */
  function Announced(length: nat): nat {
    ToSize(ToInt(length))
  }

  /** A length that does not fit an int is announced as something else: so large
      that it never comes, or short by at least 2^32. */
  lemma AnnouncedIs(length: nat)
    requires length < OFF_VALUES
    ensures length <= INT_MAX ==> Announced(length) == length
    ensures length > INT_MAX ==> Announced(length) > length || Announced(length) + INT_VALUES <= length
  {
    if length > INT_MAX {
      var i := ToInt(length);
      assert (length - i) % INT_VALUES == 0;
      if i < 0 {
        assert ToSize(i) == i + SIZE_VALUES;
      } else {
        assert length - i > 0;
      }
    }
  }

  /** What the client makes of a header and a body of which the connection took
      `head` and `body`: it succeeds with exactly `data` if and only if all was
      taken, the header comes first in one piece, and the length fits an int.
      Behind a whole header it never takes a part for all of a file of such a length. */
  lemma WireIsReceived(
      status: int, data: Bytes, head: Bytes, body: Bytes, before: Bytes, chunks: seq<Bytes>, broken: bool)
    requires |data| < OFF_VALUES
    requires head <= PrintHeader(status, ToInt(|data|)) && body <= data
    requires Deliverable(chunks, Client.BUFFER_SIZE) && Concat(chunks) == head + body
    ensures var header := PrintHeader(status, ToInt(|data|)); var o := Perform(before, chunks, broken);
            && (o.code == Some(0) && o.written == data
                <==> head == header && body == data && HeaderFirst(header, chunks) && |data| <= INT_MAX)
            && (o.code == Some(0) && o.written == data
                ==> o == Outcome(Some(0), Meaning(status), |data|, |data|, header, data))
            && (head == header ==> o.written <= data && (o.code == Some(0) && o.written != data ==> |data| > INT_MAX))
            && (head == header && HeaderFirst(header, chunks) && |data| <= INT_MAX && body != data
                ==> o.code == (if broken then None else Some(-1)) && o.written == body)
  {
    var length := ToInt(|data|);
    var header := PrintHeader(status, length);
    AnnouncedIs(|data|);
    hide PrintHeader, Perform, ToInt, ToSize;
    if head != header {
      PartialHeader(status, length, head, body, before, chunks, broken);
    } else if !HeaderFirst(header, chunks) {
      assert header != [] by { PrintHeaderEnds(status, length); }
      NotFirst(header, body, chunks);
      HeaderCutShort(status, length, before, chunks, broken);
    } else {
      ReceptionIs(status, length, body, before, chunks, broken);
      var o := Perform(before, chunks, broken);
      assert o.filelen == Announced(|data|);
      PrefixChain(o.written, body, data);
    }
  }

  lemma PrefixChain(a: Bytes, b: Bytes, c: Bytes)
    requires a <= b <= c
    ensures a <= c
    ensures |a| == |c| ==> a == b == c
    ensures |b| == |c| ==> b == c
  {
  }

  /** The client's outcome when it gets what the table holds. */
  function GotIt(file: Option<Bytes>): Outcome {
    match file
    case None => Outcome(Some(0), FileNotFound, 0, 0, FullHeader(None), [])
    case Some(data) => Outcome(Some(0), Status.Ok, |data|, |data|, FullHeader(file), data)
  }

  function Contents(file: Option<Bytes>): Bytes {
    if file.Some? then file.value else []
  }

  /** `chunks` bring the client everything that went over the connection, cut in any way. */
  ghost predicate Delivers(chunks: seq<Bytes>, t: Transfer) {
    Deliverable(chunks, Client.BUFFER_SIZE) && Concat(chunks) == t.Wire()
  }

  /** Of a request for `path` served as `t`, by the handler alone or as the handler
      alone would, `file` is what the table holds, and `o` what the client ends with:
      exactly that, if and only if every send took all it was given and every pread
      got something, the header comes first in one piece, and the length fits an int. When
      the header was taken whole, what the client writes is never anything but a
      prefix of the file, and a part never passes for all. */
  ghost predicate Received(c: Config, path: Bytes, t: Transfer, chunks: seq<Bytes>, file: Option<Bytes>, o: Outcome) {
    var data := Contents(file);
    var got := o.code == Some(0) && o.written == data;
    && OpenIn(c.items, c.files) && file == FileOf(c.items, c.files, path)
    && Alone(c.items, path, c.files, t.io).Some?
    && (got <==> AllFull(SendsOf(t.io), ReadsOf(t.io)) && HeaderFirst(FullHeader(file), chunks) && |data| <= INT_MAX)
    && (got ==> o == GotIt(file))
    && (t.head == FullHeader(file) ==> o.written <= data)
    && (t.head == FullHeader(file) && o.code == Some(0) && o.written != data ==> |data| > INT_MAX)
  }

  /** The response half, for any request served as the handler alone serves it. */
  lemma ResponseIsReceived(c: Config, path: Bytes, t: Transfer, before: Bytes, chunks: seq<Bytes>, broken: bool)
    requires OpenIn(c.items, c.files) && AsAlone(c, path, t) && t.phase.Done? && Delivers(chunks, t)
    requires |Contents(FileOf(c.items, c.files, path))| < OFF_VALUES
    ensures Received(c, path, t, chunks, FileOf(c.items, c.files, path), Perform(before, chunks, broken))
  {
    var file := FileOf(c.items, c.files, path);
    var data := Contents(file);
    AloneStaysOnTrack(c.items, path, c.files, t.io);
    WholeResponse(c.items, path, c.files, t.io);
    FaultFreeIs(t.io);
    hide Alone, FaultFree, AllFull, SendsOf, ReadsOf, PrintHeader, Perform, FileOf;
    WireIsReceived(if file.None? then GF_FILE_NOT_FOUND else GF_OK, data, t.head, t.body, before, chunks, broken);
    if t.Wire() == Response(file) {
      WholeWire(FullHeader(file), data, t.head, t.body);
    }
  }

  // ---- The content table

  /** The content table of a running server: the rows of the list, opened in
      order behind the descriptors that were open before, `others`, and in any
      order qsort may leave equal keys. Offsets may have moved since. */
  ghost predicate LoadedFrom(c: Config, text: Bytes, disk: Disk, others: Descriptors) {
    match LoadRows(text, disk)
    case None => false
    case Some(rows) =>
      && SortedPermutation(c.items, Opened(rows, |others|))
      && SameFiles(c.files, others + OpenFiles(rows, disk))
  }

  /** content_init leaves such a table, or exits where the list does not load. */
  method StartServer(text: Bytes, disk: Disk, kernel: Kernel) returns (table: ContentTable, ok: bool)
    modifies kernel
    ensures ok <==> LoadRows(text, disk).Some?
    ensures ok ==> table.Valid() && LoadedFrom(Config(table.table, kernel.fds), text, disk, old(kernel.fds))
    ensures fresh(table)
  {
    hide LoadRows, SortedPermutation;
    table := new ContentTable();
    ok := table.Init(text, disk, kernel);
  }

  /** Serving requests leaves it so: only offsets move. */
  lemma LoadedStays(c: Config, text: Bytes, disk: Disk, others: Descriptors, now: Descriptors)
    requires LoadedFrom(c, text, disk, others) && SameFiles(now, c.files)
    ensures LoadedFrom(c.(files := now), text, disk, others)
  {
    hide SortedPermutation, LoadRows;
  }

  lemma LoadedIsOpen(c: Config, text: Bytes, disk: Disk, others: Descriptors)
    requires LoadedFrom(c, text, disk, others)
    ensures OpenIn(c.items, c.files)
  {
    hide LoadRows;
    var rows := LoadRows(text, disk).value;
    PermutationIsOpen(c.items, Opened(rows, |others|), c.files);
  }

  /** The list maps the path to this file: some row with that key names it, or
      there is no file and no row has the key. */
  ghost predicate Listed(text: Bytes, disk: Disk, path: Bytes, file: Option<Bytes>) {
    var loaded := LoadRows(text, disk);
    loaded.Some? &&
    match file
    case None => forall i | 0 <= i < |loaded.value| :: loaded.value[i].key != path
    case Some(data) =>
      exists k | 0 <= k < |loaded.value| :: loaded.value[k].key == path && disk[loaded.value[k].path] == data
  }

  /** What the table answers for a path is what the list maps it to. */
  lemma FileOfLoaded(c: Config, text: Bytes, disk: Disk, others: Descriptors, path: Bytes)
    requires LoadedFrom(c, text, disk, others) && OpenIn(c.items, c.files) && NUL !in path
    ensures Listed(text, disk, path, FileOf(c.items, c.files, path))
  {
    hide LoadRows, Lookup;
    var rows := LoadRows(text, disk).value;
    TableAgreesWithRows(rows, |others|, c.items, path);
    var fd := Lookup(c.items, path);
    if fd >= 0 {
      var files := others + OpenFiles(rows, disk);
      assert files[fd] == OpenFiles(rows, disk)[fd - |others|];
      assert rows[fd - |others|].key == path;
    }
  }

  ghost predicate SmallFiles(disk: Disk) {
    forall p | p in disk :: |disk[p]| < OFF_VALUES
  }

  /** A loaded table and a response: what the client gets, said of the list. */
  lemma ListedIsReceived(text: Bytes, disk: Disk, others: Descriptors, c: Config, path: Bytes, t: Transfer,
      before: Bytes, chunks: seq<Bytes>, broken: bool) returns (file: Option<Bytes>)
    requires LoadedFrom(c, text, disk, others) && SmallFiles(disk) && NUL !in path
    requires OpenIn(c.items, c.files) && AsAlone(c, path, t) && t.phase.Done? && Delivers(chunks, t)
    ensures Listed(text, disk, path, file)
    ensures Received(c, path, t, chunks, file, Perform(before, chunks, broken))
  {
    hide Perform, Received, AsAlone, LoadRows, FileOf;
    file := FileOf(c.items, c.files, path);
    FileOfLoaded(c, text, disk, others, path);
    ResponseIsReceived(c, path, t, before, chunks, broken);
  }

  // ---- The sequential server

  lemma RequestIsHeard(path: Bytes, chunks: seq<Bytes>, stale: Bytes)
    requires NUL !in path && WellFormedPath(path) && |PrintRequest(path)| < BUFSIZ
    requires Concat(chunks) == PrintRequest(path)
    ensures ParseRequest(CStr(Gather(chunks, BUFSIZ, []))) == Get(path)
    ensures ParseRequest(Heard(chunks, BUFSIZ, stale)) == Get(path)
  {
    assert PrintRequest(path) + [] == PrintRequest(path);
    RequestUnderFragmentation(path, [], chunks, BUFSIZ);
    assert ParseRequest([]) == Malformed;
    assert CStr([]) == [];
  }

  /** End to end, sequential server. For any content list, any path the protocol
      allows, any fragmentation of the request and anything left in the buffer
      from the request before, any short reads and writes, any fragmentation of
      the response and any contents of the client's buffer: `r`, `io`, `now` and
      `t` being what ServeConnection came to, and `sends` and `preads` the calls
      recorded, it served that path, and the client ends with what the list maps
      the path to (the file's bytes, or FILE_NOT_FOUND and none) if and only if no
      call recorded fell short, the response header came first in one piece, and
      the length fits an int. */
  lemma SequentialClientGetsTheFile(
      text: Bytes, disk: Disk, others: Descriptors, c: Config,
      r: RequestParse, io: seq<Event>, now: Descriptors, t: Transfer, sends: seq<SendCall>, preads: seq<ReadCall>,
      path: Bytes, reqChunks: seq<Bytes>, stale: Bytes, before: Bytes, respChunks: seq<Bytes>, broken: bool)
      returns (file: Option<Bytes>)
    requires LoadedFrom(c, text, disk, others) && SmallFiles(disk)
    requires NUL !in path && WellFormedPath(path) && |PrintRequest(path)| < BUFSIZ
    requires Concat(reqChunks) == PrintRequest(path)
    requires r == ParseRequest(Heard(reqChunks, BUFSIZ, stale))
    requires r.Get? ==> Ran(c.items, r.path, c.files, io, now, t) && t.phase.Done?
    requires r.Get? ==> sends == SendsOf(io) && preads == ReadsOf(io)
    requires Delivers(respChunks, t)
    ensures r == Get(path) && Listed(text, disk, path, file)
    ensures sends == SendsOf(t.io) && preads == ReadsOf(t.io)
    ensures Received(c, path, t, respChunks, file, Perform(before, respChunks, broken))
  {
    hide ParseRequest, Heard, Perform, Received, LoadRows, FileOf, Alone, LoadedFrom, Listed;
    RequestIsHeard(path, reqChunks, stale);
    LoadedIsOpen(c, text, disk, others);
    AloneRecords(c.items, path, c.files, io);
    file := ListedIsReceived(text, disk, others, c, path, t, before, respChunks, broken);
  }

  /** ... and so for every client in turn: `v` is how ServeAll served the k-th of
      any list of clients, whatever those before it sent, and however they fared. */
  lemma EveryClientGetsItsFile(
      text: Bytes, disk: Disk, others: Descriptors, c: Config,
      requests: seq<seq<Bytes>>, start: Bytes, k: nat, v: Served,
      path: Bytes, before: Bytes, respChunks: seq<Bytes>, broken: bool)
      returns (file: Option<Bytes>)
    requires LoadedFrom(c, text, disk, others) && SmallFiles(disk)
    requires k < |requests| && ServedRight(c.items, c.files, LastHeard(requests[..k + 1], BUFSIZ, start), v)
    requires NUL !in path && WellFormedPath(path) && |PrintRequest(path)| < BUFSIZ
    requires Concat(requests[k]) == PrintRequest(path)
    requires Deliverable(respChunks, Client.BUFFER_SIZE) && Concat(respChunks) == v.wire
    ensures v.r == Get(path) && Listed(text, disk, path, file)
    ensures v.sends == SendsOf(v.t.io) && v.preads == ReadsOf(v.t.io)
    ensures Received(c.(files := v.before), path, v.t, respChunks, file, Perform(before, respChunks, broken))
  {
    var stale := LastHeard(requests[..k], BUFSIZ, start);
    assert requests[..k + 1][..k] == requests[..k];
    assert LastHeard(requests[..k + 1], BUFSIZ, start) == Heard(requests[k], BUFSIZ, stale);
    hide ParseRequest, Heard, Perform, Received, LoadedFrom, Listed, Ran, PrintHeader, LastHeard;
    RequestIsHeard(path, requests[k], stale);
    LoadedStays(c, text, disk, others, v.before);
    file := SequentialClientGetsTheFile(text, disk, others, c.(files := v.before), v.r, v.io, v.after, v.t,
      v.sends, v.preads, path, requests[k], stale, before, respChunks, broken);
  }

  // ---- The threaded server

  /** End to end, threaded server. The same, for a request served in any run of
      the boss and its workers, with other threads on the same descriptors; but
      for the path the worker reads, which is the one the client asked for
      exactly when a NUL lies behind its copy in the memory of the request. */
  lemma ClientGetsTheFile(
      text: Bytes, disk: Disk, others: Descriptors, c: Config,
      n: nat, connections: seq<Bytes>, ls: seq<Label>, s: State, id: nat,
      path: Bytes, reqChunks: seq<Bytes>, stale: Bytes, before: Bytes, respChunks: seq<Bytes>, broken: bool)
      returns (file: Option<Bytes>)
    requires LoadedFrom(c, text, disk, others) && SmallFiles(disk)
    requires Reachable(c, n, connections, ls, s) && id in s.served && id < |connections|
    requires NUL !in path && WellFormedPath(path) && |PrintRequest(path)| < BUFSIZ
    requires Concat(reqChunks) == PrintRequest(path)
    requires ParseRequest(Heard(reqChunks, BUFSIZ, stale)) == Get(connections[id])
    requires Delivers(respChunks, s.served[id])
    ensures id < |BlocksOf(ls)|
    ensures var block := BlocksOf(ls)[id]; var copied := Copied(path, block);
            && (copied == path <==> block == [] || block[0] == NUL)
            && Listed(text, disk, copied, file)
            && Received(c, copied, s.served[id], respChunks, file, Perform(before, respChunks, broken))
  {
    hide ParseRequest, Heard, Perform, Received, LoadRows, FileOf, Alone, LoadedFrom, Listed, Reachable, Finished;
    RequestIsHeard(path, reqChunks, stale);
    ThreadedServed(c, n, connections, ls, s, id);
    CopiedWhole(path, BlocksOf(ls)[id]);
    file := ListedIsReceived(text, disk, others, c, Copied(path, BlocksOf(ls)[id]), s.served[id],
      before, respChunks, broken);
  }

  lemma ThreadedServed(c: Config, n: nat, connections: seq<Bytes>, ls: seq<Label>, s: State, id: nat)
    requires Reachable(c, n, connections, ls, s) && id in s.served && id < |connections|
    ensures OpenIn(c.items, c.files) && s.served[id].phase.Done? && id < |BlocksOf(ls)|
    ensures AsAlone(c, Copied(connections[id], BlocksOf(ls)[id]), s.served[id])
  {
    ThreadedRefinesSequential(c, n, connections, ls, s, id);
  }

  /** The one line "/a f" of a list. */
  const ONE_LINE := Line(Row([SLASH, 97], [102]), SPACE, [LF])

  lemma OneLineIsFull()
    ensures FullLine(ONE_LINE)
  {
    assert PrintRow(ONE_LINE) == [SLASH, 97] + [SPACE] + [102] + [LF];
    assert ONE_LINE.tail[..0] == [];
  }

  lemma OneLineLists(l: Line, disk: Disk, path: Bytes, file: Option<Bytes>)
    requires FullLine(l) && l.row.path in disk
    ensures Listed(PrintRows([l]), disk, path, file)
            <==> file == if path == l.row.key then Some(disk[l.row.path]) else None
  {
    hide LoadRows, FullLine, PrintRow;
    LoadRowsInvertsPrint([l], disk);
    assert RowsOf([l]) == [l.row] + RowsOf([]);
    var rows := LoadRows(PrintRows([l]), disk).value;
    assert rows == [l.row] && rows[0] == l.row;
  }

  lemma StaleCopy()
    ensures Copied([SLASH, 97], [98, NUL]) == [SLASH, 97, 98]
    ensures ([SLASH, 97, 98] + [NUL])[2..] == [98, NUL]
  {
    assert [SLASH, 97] + [98, NUL] == [SLASH, 97, 98] + [NUL] + [];
    CStrOfTerminated([SLASH, 97, 98], []);
  }

  /** It goes wrong: "/a" is on the list and asked for, but "b" lies behind its
      copy, as a longer path copied there before leaves it. There is a run that
      serves the request, without any call falling short; the worker looks for
      "/ab", and the client is told that there is no such file. */
  lemma StaleMemoryMisleads(disk: Disk, others: Descriptors, c: Config, before: Bytes)
      returns (ls: seq<Label>, s: State)
    requires [102] in disk && SmallFiles(disk) && LoadedFrom(c, PrintRows([ONE_LINE]), disk, others)
    ensures Listed(PrintRows([ONE_LINE]), disk, [SLASH, 97], Some(disk[[102]]))
    ensures OpenIn(c.items, c.files) && Reachable(c, 1, [[SLASH, 97]], ls, s) && 0 in s.served
    ensures BlocksOf(ls) == [([SLASH, 97, 98] + [NUL])[2..]]
    ensures AllFull(SendsOf(s.served[0].io), ReadsOf(s.served[0].io))
    ensures forall respChunks, broken
              | Delivers(respChunks, s.served[0]) && HeaderFirst(FullHeader(None), respChunks) ::
              Perform(before, respChunks, broken) == GotIt(None)
  {
    hide FullLine, LoadRows, Perform, FullHeader, GotIt, LoadedFrom, Reachable, AsAlone, Delivers, PrintRows, AllFull, SendsOf,
         ReadsOf, BlocksOf, Listed;
    OneLineIsFull();
    OneLineLists(ONE_LINE, disk, [SLASH, 97], Some(disk[[102]]));
    LoadedIsOpen(c, PrintRows([ONE_LINE]), disk, others);
    ls, s := StaleRun(c);
    forall respChunks, broken | Delivers(respChunks, s.served[0]) && HeaderFirst(FullHeader(None), respChunks)
      ensures Perform(before, respChunks, broken) == GotIt(None)
    {
      ServedAsAbsent(disk, others, c, s.served[0], before, respChunks, broken);
    }
  }

  lemma StaleRun(c: Config) returns (ls: seq<Label>, s: State)
    requires OpenIn(c.items, c.files)
    ensures Reachable(c, 1, [[SLASH, 97]], ls, s) && 0 in s.served
    ensures BlocksOf(ls) == [([SLASH, 97, 98] + [NUL])[2..]]
    ensures s.served[0].phase.Done? && AsAlone(c, [SLASH, 97, 98], s.served[0])
    ensures AllFull(SendsOf(s.served[0].io), ReadsOf(s.served[0].io))
  {
    hide Reachable, AsAlone, BlocksOf, AllFull, SendsOf, ReadsOf, FaultFree, Copied;
    ls, s := AllCanBeServed(c, 1, [[SLASH, 97]], [[98, NUL]]);
    assert 0 in s.served && FaultFree(s.served[0].io);
    StaleCopy();
    ThreadedServed(c, 1, [[SLASH, 97]], ls, s, 0);
    FaultFreeIs(s.served[0].io);
  }

  lemma ServedAsAbsent(
      disk: Disk, others: Descriptors, c: Config, t: Transfer, before: Bytes, respChunks: seq<Bytes>, broken: bool)
    requires [102] in disk && SmallFiles(disk) && LoadedFrom(c, PrintRows([ONE_LINE]), disk, others)
    requires OpenIn(c.items, c.files) && AsAlone(c, [SLASH, 97, 98], t) && t.phase.Done?
    requires AllFull(SendsOf(t.io), ReadsOf(t.io))
    requires Delivers(respChunks, t) && HeaderFirst(FullHeader(None), respChunks)
    ensures Perform(before, respChunks, broken) == GotIt(None)
  {
    hide FullLine, LoadRows, Perform, FullHeader, GotIt, Alone, LoadedFrom, AsAlone, FileOf, PrintRows, AllFull, SendsOf, ReadsOf,
         Delivers, Listed;
    OneLineIsFull();
    var file := ListedIsReceived(PrintRows([ONE_LINE]), disk, others, c, [SLASH, 97, 98], t,
      before, respChunks, broken);
    OneLineLists(ONE_LINE, disk, [SLASH, 97, 98], file);
  }
}
