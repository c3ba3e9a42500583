/**
 The content table: rows read from a list file, opened one by one into a
 growing array, sorted by key, and searched by bisection.
 */
module Content {
  import opened Wrappers
  import opened CString
  import opened Files

  const MAX_KEYLEN := 256

  datatype Row = Row(key: Bytes, path: Bytes)
  datatype Item = Item(fildes: int, key: Bytes)

  type Disk = map<Bytes, Bytes>

  // ---- Reading rows

  /** fgets(_, MAX_KEYLEN, _) on the unread rest of the list: up to and with
      the next newline, but at most MAX_KEYLEN - 1 bytes. */
  function Fgets(rest: Bytes): (line: Bytes)
    requires rest != []
    ensures line != [] && line <= rest && |line| < MAX_KEYLEN
  {
    rest[..Min(MAX_KEYLEN - 1, Min(|rest|, Span(rest, [LF], false) + 1))]
  }

  /** The line ends at the first newline, or where the buffer or the list does. */
  lemma FgetsIs(rest: Bytes)
    requires rest != []
    ensures var line := Fgets(rest);
            && LF !in line[..|line| - 1]
            && (line[|line| - 1] == LF || |line| == MAX_KEYLEN - 1 || line == rest)
  {
    var line := Fgets(rest);
    assert forall i | 0 <= i < |line| - 1 :: line[i] == rest[i];
  }

  /** The last byte of the line is dropped, whatever it is; then two strsep
      calls. None: no second field, so open is given NULL and fails. On an empty
      string C drops the byte before the key, which is part of the descriptor
      that open is about to set; then it fails in the same way. */
  function ParseRow(line: Bytes): (r: Option<Row>)
    ensures r.None? <==> forall i | 0 <= i < |line| - 1 :: line[i] != SPACE && line[i] != TAB
    ensures r.Some? ==> forall c | c in r.value.key :: c in line
  {
    if line == [] then None
    else
      var cut := line[..|line| - 1];
      var k := Span(cut, BLANKS, false);
      if k == |cut| then None
      else
        var rest := cut[k + 1..];
        Some(Row(cut[..k], rest[..Span(rest, BLANKS, false)]))
  }

  /** The next row of the list and the rest of it; None if its file cannot be
      opened, which exits the process. The line ends at its first NUL, if it has one. */
  function NextRow(text: Bytes, disk: Disk): (r: Option<(Row, Bytes)>)
    requires text != []
    ensures r.Some? ==> r.value.0.path in disk && |r.value.1| < |text|
    ensures r.Some? ==> NUL !in r.value.0.key
  {
    var line := Fgets(text);
    match ParseRow(CStr(line))
    case None => None
    case Some(row) => if row.path in disk then Some((row, text[|line|..])) else None
  }

  function LoadRows(text: Bytes, disk: Disk): (r: Option<seq<Row>>)
    ensures r.Some? ==> forall i | 0 <= i < |r.value| :: r.value[i].path in disk && NUL !in r.value[i].key
    decreases |text|
  {
    if text == [] then Some([])
    else
      match NextRow(text, disk)
      case None => None
      case Some(next) => Continue([next.0], LoadRows(next.1, disk))
  }

  /** The rows read so far with what the rest of the list gives. */
  function Continue(done: seq<Row>, more: Option<seq<Row>>): Option<seq<Row>> {
    match more
    case None => None
    case Some(rows) => Some(done + rows)
  }

  lemma ContinueAssociates(done: seq<Row>, next: seq<Row>, more: Option<seq<Row>>)
    ensures Continue(done, Continue(next, more)) == Continue(done + next, more)
    ensures Continue([], more) == more
    ensures Continue(done, Some([])) == Some(done)
  {
    assert done + [] == done;
    match more
    case None =>
    case Some(rows) =>
      assert done + (next + rows) == done + next + rows;
      assert [] + rows == rows;
  }

  /** A line of the list: a row, the blank between its fields, and what follows the path. */
  datatype Line = Line(row: Row, blank: byte, tail: Bytes)

  function PrintRow(l: Line): Bytes {
    l.row.key + [l.blank] + l.row.path + l.tail
  }

  function PrintRows(ls: seq<Line>): Bytes {
    if ls == [] then [] else PrintRow(ls[0]) + PrintRows(ls[1..])
  }

  function RowsOf(ls: seq<Line>): seq<Row> {
    if ls == [] then [] else [ls[0].row] + RowsOf(ls[1..])
  }

  ghost predicate CleanField(s: Bytes) {
    forall i | 0 <= i < |s| :: s[i] != SPACE && s[i] != TAB && s[i] != LF && s[i] != NUL
  }

  /** A row as content.h describes it, whose line is short enough for the key
      buffer; nothing, or a blank, or a newline may follow the path. */
  ghost predicate RowLine(l: Line) {
    && CleanField(l.row.key) && CleanField(l.row.path) && l.blank in BLANKS
    && (l.tail != [] ==> l.tail[0] in BLANKS || l.tail[0] == LF)
    && (l.tail != [] ==> LF !in l.tail[..|l.tail| - 1]) && NUL !in l.tail
    && |PrintRow(l)| < MAX_KEYLEN
  }

  /** ... and which has its newline. */
  ghost predicate FullLine(l: Line) {
    RowLine(l) && l.tail != [] && l.tail[|l.tail| - 1] == LF
  }

  ghost predicate AllOpen(ls: seq<Line>, disk: Disk) {
    forall i | 0 <= i < |ls| :: ls[i].row.path in disk
  }

  /** A key, a blank, a path, and whatever the line holds from the next blank
      on; `last` is the byte taken for the newline. */
  lemma ParseRowOfFields(key: Bytes, blank: byte, path: Bytes, more: Bytes, last: byte)
    requires CleanField(key) && CleanField(path) && blank in BLANKS
    requires more != [] ==> more[0] in BLANKS
    ensures ParseRow(key + [blank] + path + more + [last]) == Some(Row(key, path))
  {
    var line := key + [blank] + path + more + [last];
    var cut := key + [blank] + path + more;
    assert line[..|line| - 1] == cut;
    assert forall k | 0 <= k < |key| :: cut[k] == key[k];
    SpanIs(cut, BLANKS, false, |key|);
    var rest := path + more;
    assert cut[|key| + 1..] == rest;
    assert forall k | 0 <= k < |path| :: rest[k] == path[k];
    SpanIs(rest, BLANKS, false, |path|);
    assert cut[..|key|] == key && rest[..|path|] == path;
  }

  /** fgets takes a short line whole: its newline is its last byte, if it has one. */
  lemma FgetsOfLine(line: Bytes, rest: Bytes)
    requires line != [] && |line| < MAX_KEYLEN && LF !in line[..|line| - 1]
    requires line[|line| - 1] == LF || rest == []
    ensures Fgets(line + rest) == line
  {
    var n := if line[|line| - 1] == LF then |line| - 1 else |line|;
    assert forall k | 0 <= k < |line| - 1 :: line[..|line| - 1][k] == (line + rest)[k];
    SpanIs(line + rest, [LF], false, n);
    assert (line + rest)[..|line|] == line;
  }

  lemma LineIsString(l: Line)
    requires RowLine(l)
    ensures var line := PrintRow(l);
            CStr(line) == line && LF !in line[..|line| - 1]
  {
    var line := PrintRow(l);
    assert NUL !in line;
    SpanIs(line, [NUL], false, |line|);
    forall i | 0 <= i < |line| - 1
      ensures line[i] != LF
    {
      var k := i - |l.row.key + [l.blank] + l.row.path|;
      assert k >= 0 ==> line[i] == l.tail[..|l.tail| - 1][k];
    }
  }

  /** A row with nothing behind its path loses the last byte of the path. */
  lemma UnterminatedRow(row: Row, blank: byte)
    requires CleanField(row.key) && CleanField(row.path) && blank in BLANKS && row.path != []
    ensures ParseRow(row.key + [blank] + row.path) == Some(Row(row.key, row.path[..|row.path| - 1]))
  {
    var n := |row.path| - 1;
    assert row.path == row.path[..n] + [row.path[n]];
    ParseRowOfFields(row.key, blank, row.path[..n], [], row.path[n]);
    assert row.key + [blank] + row.path[..n] + [] + [row.path[n]] == row.key + [blank] + row.path;
  }

  lemma ParseRowNeedsTail(l: Line)
    requires RowLine(l)
    ensures ParseRow(PrintRow(l)) == Some(l.row) <==> l.tail != []
  {
    var Line(row, blank, tail) := l;
    if tail != [] {
      var n := |tail| - 1;
      ParseRowOfFields(row.key, blank, row.path, tail[..n], tail[n]);
      assert PrintRow(l) == row.key + [blank] + row.path + tail[..n] + [tail[n]];
    } else if row.path != [] {
      UnterminatedRow(row, blank);
      assert PrintRow(l) == row.key + [blank] + row.path;
    } else {
      assert forall i | 0 <= i < |PrintRow(l)| - 1 :: PrintRow(l)[i] == row.key[i];
    }
  }

  lemma NextRowOfLine(l: Line, rest: Bytes, disk: Disk)
    requires FullLine(l)
    ensures PrintRow(l) + rest != []
    ensures NextRow(PrintRow(l) + rest, disk) == if l.row.path in disk then Some((l.row, rest)) else None
  {
    var line := PrintRow(l);
    LineIsString(l);
    assert line[|line| - 1] == LF;
    FgetsOfLine(line, rest);
    ParseRowNeedsTail(l);
    assert (line + rest)[|line|..] == rest;
    hide CStr, Fgets, ParseRow, PrintRow, RowLine;
  }

  lemma LoadRowsNext(text: Bytes, disk: Disk)
    requires text != []
    ensures LoadRows(text, disk)
         == match NextRow(text, disk) case None => None case Some((row, rest)) => Continue([row], LoadRows(rest, disk))
  {
  }

  /** Full lines at the front of a list are read one by one, whatever follows
      them, up to a file that cannot be opened. */
  lemma {:induction false} LoadRowsBehind(ls: seq<Line>, rest: Bytes, disk: Disk)
    requires forall i | 0 <= i < |ls| :: FullLine(ls[i])
    ensures LoadRows(PrintRows(ls) + rest, disk)
         == if AllOpen(ls, disk) then Continue(RowsOf(ls), LoadRows(rest, disk)) else None
  {
    hide LoadRows, NextRow, Continue, PrintRow, FullLine;
    if ls == [] {
      assert PrintRows(ls) + rest == rest;
      ContinueAssociates([], [], LoadRows(rest, disk));
    } else {
      var more := PrintRows(ls[1..]) + rest;
      NextRowOfLine(ls[0], more, disk);
      assert PrintRows(ls) + rest == PrintRow(ls[0]) + more;
      LoadRowsBehind(ls[1..], rest, disk);
      LoadRowsNext(PrintRow(ls[0]) + more, disk);
      AllOpenCons(ls, disk);
      ContinueAssociates([ls[0].row], RowsOf(ls[1..]), LoadRows(rest, disk));
      ContinueNone([ls[0].row]);
    }
  }

  lemma AllOpenCons(ls: seq<Line>, disk: Disk)
    requires ls != []
    ensures AllOpen(ls, disk) <==> ls[0].row.path in disk && AllOpen(ls[1..], disk)
  {
    assert ls == [ls[0]] + ls[1..];
  }

  lemma ContinueNone(done: seq<Row>)
    ensures Continue(done, None) == None
  {
  }

  /** A list of full lines is read back row by row exactly when all its files open. */
  lemma LoadRowsInvertsPrint(ls: seq<Line>, disk: Disk)
    requires forall i | 0 <= i < |ls| :: FullLine(ls[i])
    ensures LoadRows(PrintRows(ls), disk) == if AllOpen(ls, disk) then Some(RowsOf(ls)) else None
  {
    LoadRowsBehind(ls, [], disk);
    assert PrintRows(ls) + [] == PrintRows(ls);
    ContinueAssociates(RowsOf(ls), [], None);
  }

  /** The last row of a list is read as it stands exactly when something, be it
      its newline or a blank, follows its path, and all files open. */
  lemma LastRowNeedsTail(ls: seq<Line>, last: Line, disk: Disk)
    requires forall i | 0 <= i < |ls| :: FullLine(ls[i])
    requires RowLine(last)
    ensures LoadRows(PrintRows(ls) + PrintRow(last), disk) == Some(RowsOf(ls) + [last.row])
            <==> last.tail != [] && last.row.path in disk && AllOpen(ls, disk)
  {
    var line := PrintRow(last);
    LoadRowsBehind(ls, line, disk);
    LineIsString(last);
    ParseRowNeedsTail(last);
    hide *;
    LoadLastLine(line, disk);
    ContinueCancels(RowsOf(ls), LoadRows(line, disk), last.row);
  }

  lemma ContinueCancels(rows: seq<Row>, more: Option<seq<Row>>, row: Row)
    ensures Continue(rows, more) == Some(rows + [row]) <==> more == Some([row])
  {
    match more
    case None =>
    case Some(rs) =>
      assert rs == (rows + rs)[|rows|..];
      assert [row] == (rows + [row])[|rows|..];
  }

  lemma LoadLastLine(line: Bytes, disk: Disk)
    requires line != [] && |line| < MAX_KEYLEN && LF !in line[..|line| - 1]
    ensures LoadRows(line, disk) == match ParseRow(CStr(line))
                                    case None => None
                                    case Some(row) => if row.path in disk then Some([row]) else None
  {
    FgetsOfLine(line, []);
    assert line + [] == line && line[|line|..] == [];
    hide CStr, ParseRow, Fgets;
    assert LoadRows([], disk) == Some([]);
    match ParseRow(CStr(line))
    case None =>
    case Some(row) =>
      if row.path in disk {
        LoadRowsNext(line, disk);
        ContinueAssociates([row], [], None);
      }
  }

  // ---- The table

  /** Row k is opened as descriptor `base + k`. */
  function Opened(rows: seq<Row>, base: nat): (items: seq<Item>)
    ensures |items| == |rows|
  {
    seq(|rows|, k requires 0 <= k < |rows| => Item(base + k, rows[k].key))
  }

  function OpenFiles(rows: seq<Row>, disk: Disk): (fds: Descriptors)
    requires forall i | 0 <= i < |rows| :: rows[i].path in disk
    ensures |fds| == |rows|
  {
    seq(|rows|, k requires 0 <= k < |rows| => Descriptor(disk[rows[k].path], 0))
  }

  ghost predicate NulFreeKeys(items: seq<Item>) {
    forall i | 0 <= i < |items| :: NUL !in items[i].key
  }

  ghost predicate Sorted(items: seq<Item>) {
    forall i, j | 0 <= i < j < |items| :: StrCmp(items[i].key, items[j].key) <= 0
  }

  /** What qsort promises, section 7.20.5.2 of ISO C99. */
  ghost predicate SortedPermutation(items: seq<Item>, of: seq<Item>) {
    Sorted(items) && multiset(items) == multiset(of)
  }

  /** content_get's bisection over items[lo..hi]: an index, or -1. */
  function Search(items: seq<Item>, key: Bytes, lo: int, hi: int): (r: int)
    requires 0 <= lo && hi < |items|
    ensures r == -1 || 0 <= r < |items|
    decreases hi - lo + 1
  {
    if lo > hi then -1
    else
      var mid := lo + (hi - lo) / 2;
      var cmp := StrCmp(key, items[mid].key);
      if cmp < 0 then Search(items, key, lo, mid - 1)
      else if cmp > 0 then Search(items, key, mid + 1, hi)
      else mid
  }

  /** The descriptor content_get returns, or -1. */
  function Lookup(items: seq<Item>, key: Bytes): int {
    var i := Search(items, key, 0, |items| - 1);
    if i < 0 then -1 else items[i].fildes
  }

  /** What the comparison with the middle item rules out. */
  lemma WrongSide(items: seq<Item>, key: Bytes, mid: nat, i: nat)
    requires Sorted(items) && mid < |items| && i < |items|
    ensures StrCmp(key, items[mid].key) < 0 && mid <= i ==> items[i].key != key
    ensures StrCmp(key, items[mid].key) > 0 && i <= mid ==> items[i].key != key
  {
    StrCmpFlip(key, items[mid].key);
  }

  /** Bisection finds the key if it lies in items[lo..hi], and finds nothing else. */
  lemma {:induction false} SearchFinds(items: seq<Item>, key: Bytes, lo: int, hi: int)
    requires 0 <= lo && hi < |items|
    requires Sorted(items) && NulFreeKeys(items) && NUL !in key
    ensures var r := Search(items, key, lo, hi);
            && (r != -1 ==> lo <= r <= hi && items[r].key == key)
            && (r == -1 ==> forall i | lo <= i <= hi :: items[i].key != key)
    decreases hi - lo + 1
  {
    hide StrCmp;
    if lo <= hi {
      var mid := lo + (hi - lo) / 2;
      var cmp := StrCmp(key, items[mid].key);
      if cmp < 0 {
        SearchFinds(items, key, lo, mid - 1);
      } else if cmp > 0 {
        SearchFinds(items, key, mid + 1, hi);
      }
      StrCmpZero(key, items[mid].key);
      forall i | lo <= i <= hi
        ensures (cmp < 0 && mid <= i) || (cmp > 0 && i <= mid) ==> items[i].key != key
      {
        WrongSide(items, key, mid, i);
      }
    }
  }

  lemma KeysAreClean(items: seq<Item>, of: seq<Item>)
    requires multiset(items) == multiset(of) && NulFreeKeys(of)
    ensures NulFreeKeys(items)
  {
    forall i | 0 <= i < |items|
      ensures NUL !in items[i].key
    {
      assert items[i] in multiset(items);
    }
  }

  /** The sorted table agrees with the plain row list, for every key: the
      descriptor returned was opened for a row with that key, and -1 is returned
      exactly when no row has it. */
  lemma TableAgreesWithRows(rows: seq<Row>, base: nat, items: seq<Item>, key: Bytes)
    requires SortedPermutation(items, Opened(rows, base))
    requires NUL !in key && forall i | 0 <= i < |rows| :: NUL !in rows[i].key
    ensures var fd := Lookup(items, key);
            && (fd != -1 ==> 0 <= fd - base < |rows| && rows[fd - base].key == key)
            && (fd == -1 ==> forall i | 0 <= i < |rows| :: rows[i].key != key)
  {
    var all := Opened(rows, base);
    KeysAreClean(items, all);
    SearchFinds(items, key, 0, |items| - 1);
    var r := Search(items, key, 0, |items| - 1);
    if r != -1 {
      assert items[r] in multiset(items);
      assert items[r] in all;
    } else {
      forall i | 0 <= i < |rows|
        ensures rows[i].key != key
      {
        assert all[i] in multiset(all);
        assert all[i] in items;
      }
    }
  }

  /** With unique keys the answer is the descriptor of the row itself. */
  lemma TableFindsTheRow(rows: seq<Row>, base: nat, items: seq<Item>, k: nat)
    requires SortedPermutation(items, Opened(rows, base))
    requires forall i | 0 <= i < |rows| :: NUL !in rows[i].key
    requires forall i, j | 0 <= i < j < |rows| :: rows[i].key != rows[j].key
    requires k < |rows|
    ensures Lookup(items, rows[k].key) == base + k
  {
    TableAgreesWithRows(rows, base, items, rows[k].key);
    var fd := Lookup(items, rows[k].key);
    assert rows[fd - base].key == rows[k].key;
  }

  // ---- A sort that keeps qsort's contract

  function Insert(x: Item, s: seq<Item>): seq<Item> {
    if s == [] || StrCmp(x.key, s[0].key) <= 0 then [x] + s else [s[0]] + Insert(x, s[1..])
  }

  function InsertionSort(s: seq<Item>): seq<Item> {
    if s == [] then [] else Insert(s[0], InsertionSort(s[1..]))
  }

  ghost predicate AtMostAll(key: Bytes, s: seq<Item>) {
    forall j | 0 <= j < |s| :: StrCmp(key, s[j].key) <= 0
  }

  lemma InsertBefore(x: Item, s: seq<Item>)
    requires Sorted(s) && NulFreeKeys(s) && NUL !in x.key
    requires s != [] && StrCmp(x.key, s[0].key) <= 0
    ensures AtMostAll(x.key, s)
  {
    forall j | 0 < j < |s|
      ensures StrCmp(x.key, s[j].key) <= 0
    {
      StrCmpTransitive(x.key, s[0].key, s[j].key);
    }
  }

  lemma ConsSorted(x: Item, s: seq<Item>)
    requires Sorted(s) && AtMostAll(x.key, s)
    ensures Sorted([x] + s) && multiset([x] + s) == multiset{x} + multiset(s)
  {
  }

  lemma {:induction false} InsertAbove(key: Bytes, x: Item, s: seq<Item>)
    requires AtMostAll(key, s) && StrCmp(key, x.key) <= 0
    ensures AtMostAll(key, Insert(x, s))
  {
    hide StrCmp;
    if s == [] || StrCmp(x.key, s[0].key) <= 0 {
      assert Insert(x, s) == [x] + s;
    } else {
      assert AtMostAll(key, s[1..]);
      InsertAbove(key, x, s[1..]);
      assert Insert(x, s) == [s[0]] + Insert(x, s[1..]);
    }
  }

  lemma {:induction false} InsertKeepsOrder(x: Item, s: seq<Item>)
    requires Sorted(s) && NulFreeKeys(s) && NUL !in x.key
    ensures Sorted(Insert(x, s)) && multiset(Insert(x, s)) == multiset{x} + multiset(s)
  {
    hide StrCmp;
    if s == [] {
    } else if StrCmp(x.key, s[0].key) <= 0 {
      InsertBefore(x, s);
      ConsSorted(x, s);
    } else {
      var tail := s[1..];
      assert s == [s[0]] + tail;
      StrCmpFlip(x.key, s[0].key);
      InsertKeepsOrder(x, tail);
      InsertAbove(s[0].key, x, tail);
      ConsSorted(s[0], Insert(x, tail));
      ConsSorted(s[0], tail);
    }
  }

  lemma {:induction false} InsertionSortSorts(s: seq<Item>)
    requires NulFreeKeys(s)
    ensures SortedPermutation(InsertionSort(s), s)
    ensures NulFreeKeys(InsertionSort(s))
    ensures |InsertionSort(s)| == |s|
  {
    if s != [] {
      InsertionSortSorts(s[1..]);
      assert s == [s[0]] + s[1..];
      InsertKeepsOrder(s[0], InsertionSort(s[1..]));
    }
    KeysAreClean(InsertionSort(s), s);
    assert |InsertionSort(s)| == |multiset(InsertionSort(s))| == |multiset(s)|;
  }

  method QSort(a: array<Item>, n: nat)
    requires n <= a.Length && NulFreeKeys(a[..n])
    modifies a
    ensures SortedPermutation(a[..n], old(a[..n]))
    ensures a[n..] == old(a[n..])
  {
    var sorted := InsertionSort(a[..n]);
    InsertionSortSorts(a[..n]);
    for i := 0 to n
      invariant a[..i] == sorted[..i]
      invariant a[n..] == old(a[n..])
    {
      a[i] := sorted[i];
    }
    assert a[..n] == sorted[..n] == sorted;
  }

  /** What has been read, opened and entered, when `rest` is still to be read. */
  ghost predicate Progress(text: Bytes, rest: Bytes, disk: Disk, base: nat, done: seq<Row>,
      table: seq<Item>, files: Descriptors) {
    && (forall i | 0 <= i < |done| :: done[i].path in disk)
    && table == Opened(done, base)
    && files == OpenFiles(done, disk)
    && LoadRows(text, disk) == Continue(done, LoadRows(rest, disk))
  }

  lemma ProgressStarts(text: Bytes, disk: Disk, base: nat)
    ensures Progress(text, text, disk, base, [], [], [])
  {
    ContinueAssociates([], [], LoadRows(text, disk));
  }

  lemma OpenOne(done: seq<Row>, base: nat, row: Row, disk: Disk)
    requires row.path in disk && forall i | 0 <= i < |done| :: done[i].path in disk
    ensures Opened(done + [row], base) == Opened(done, base) + [Item(base + |done|, row.key)]
    ensures OpenFiles(done + [row], disk) == OpenFiles(done, disk) + [Descriptor(disk[row.path], 0)]
  {
  }

  lemma ProgressStep(text: Bytes, rest: Bytes, disk: Disk, base: nat, done: seq<Row>,
      table: seq<Item>, files: Descriptors)
    requires rest != [] && Progress(text, rest, disk, base, done, table, files)
    ensures match NextRow(rest, disk)
            case None => LoadRows(text, disk) == None
            case Some((row, rest')) =>
              Progress(text, rest', disk, base, done + [row], table + [Item(base + |done|, row.key)],
                files + [Descriptor(disk[row.path], 0)])
  {
    match NextRow(rest, disk)
    case None =>
    case Some((row, rest')) =>
      OpenOne(done, base, row, disk);
      ContinueAssociates(done, [row], LoadRows(rest', disk));
  }

  lemma ProgressEnds(text: Bytes, disk: Disk, base: nat, done: seq<Row>, table: seq<Item>, files: Descriptors)
    requires Progress(text, [], disk, base, done, table, files)
    ensures LoadRows(text, disk) == Some(done)
    ensures forall i | 0 <= i < |done| :: done[i].path in disk
    ensures table == Opened(done, base) && files == OpenFiles(done, disk)
  {
    ContinueAssociates(done, [], None);
  }

  ghost predicate OpenIn(items: seq<Item>, fds: Descriptors) {
    forall i | 0 <= i < |items| :: 0 <= items[i].fildes < |fds|
  }

  lemma PermutationIsOpen(items: seq<Item>, of: seq<Item>, fds: Descriptors)
    requires multiset(items) == multiset(of) && OpenIn(of, fds)
    ensures OpenIn(items, fds)
  {
    forall i | 0 <= i < |items|
      ensures 0 <= items[i].fildes < |fds|
    {
      assert items[i] in multiset(items);
    }
  }

  /** The file's static state: the array, and how many of its slots are in use.
      `table` is what the used slots hold. */
  class ContentTable {
    var items: array<Item>
    var nitems: nat
    ghost var table: seq<Item>

    ghost predicate Valid()
      reads this, items
    {
      nitems == |table| <= items.Length && items[..nitems] == table
    }

    /** A slot is free for the next row. */
    ghost predicate Growing()
      reads this, items
    {
      Valid() && nitems < items.Length
    }

    constructor ()
      ensures Valid() && table == []
    {
      items := new Item[0];
      nitems := 0;
      table := [];
    }

    /** Write the key of the slot being filled. */
    method StoreKey(key: Bytes)
      requires Growing()
      modifies items
      ensures Growing() && items[nitems].key == key
    {
      items[nitems] := items[nitems].(key := key);
    }

    /** Complete the slot, and make room for the next row: the array doubles as
        soon as it is full, keeping the rows it holds. */
    method Commit(fd: int)
      requires Growing()
      modifies this, items
      ensures Growing() && (items == old(items) || fresh(items))
      ensures table == old(table) + [Item(fd, old(items[nitems].key))]
    {
      items[nitems] := items[nitems].(fildes := fd);
      table := table + [items[nitems]];
      nitems := nitems + 1;
      if nitems == items.Length {
        var larger := new Item[2 * items.Length];
        forall i | 0 <= i < nitems {
          larger[i] := items[i];
        }
        assert larger[..nitems] == items[..nitems];
        items := larger;
      }
    }

    /** One pass of the reading loop; fgets puts the line into the free slot. */
    method AddRow(text: Bytes, disk: Disk, kernel: Kernel) returns (rest: Option<Bytes>)
      requires text != [] && Growing()
      modifies this, items, kernel
      ensures rest == match NextRow(text, disk) case None => None case Some(next) => Some(next.1)
      ensures rest.Some? ==>
                var row := NextRow(text, disk).value.0;
                && Growing() && (items == old(items) || fresh(items))
                && table == old(table) + [Item(|old(kernel.fds)|, row.key)]
                && kernel.fds == old(kernel.fds) + [Descriptor(disk[row.path], 0)]
    {
      var line := Fgets(text);
      StoreKey(CStr(line));
      var row := ParseRow(CStr(line));
      if row == None {
        return None;
      }
      StoreKey(row.value.key);
      var fd := kernel.Open(row.value.path, disk);
      if fd < 0 {
        return None;
      }
      Commit(fd);
      rest := Some(text[|line|..]);
    }

    /** content_init; false where it exits the process. The slot fgets writes is
        inside the array before every row. */
    method Init(text: Bytes, disk: Disk, kernel: Kernel) returns (ok: bool)
      modifies this, kernel
      ensures ok <==> LoadRows(text, disk).Some?
      ensures ok ==> Valid() && fresh(items)
      ensures ok ==> SortedPermutation(table, Opened(LoadRows(text, disk).value, |old(kernel.fds)|))
      ensures ok ==> kernel.fds == old(kernel.fds) + OpenFiles(LoadRows(text, disk).value, disk)
    {
      ok := ReadRows(text, disk, kernel);
      if ok {
        assert NulFreeKeys(table);
        QSort(items, nitems);
        table := items[..nitems];
      }
    }

    method ReadRows(text: Bytes, disk: Disk, kernel: Kernel) returns (ok: bool)
      modifies this, kernel
      ensures ok <==> LoadRows(text, disk).Some?
      ensures ok ==> Growing() && fresh(items)
      ensures ok ==> table == Opened(LoadRows(text, disk).value, |old(kernel.fds)|)
      ensures ok ==> kernel.fds == old(kernel.fds) + OpenFiles(LoadRows(text, disk).value, disk)
    {
      hide LoadRows, NextRow, Progress;
      items := new Item[16];
      nitems, table := 0, [];
      var rest := text;
      ghost var done: seq<Row> := [];
      ghost var base := |kernel.fds|;
      ghost var files: Descriptors := [];
      ProgressStarts(text, disk, base);
      while rest != []
        invariant Growing() && fresh(items)
        invariant Progress(text, rest, disk, base, done, table, files)
        invariant kernel.fds == old(kernel.fds) + files && |files| == |done|
        decreases |rest|
      {
        ProgressStep(text, rest, disk, base, done, table, files);
        ghost var next := NextRow(rest, disk);
        var more := AddRow(rest, disk, kernel);
        if more == None {
          return false;
        }
        done := done + [next.value.0];
        files := files + [Descriptor(disk[next.value.0.path], 0)];
        rest := more.value;
      }
      ProgressEnds(text, disk, base, done, table, files);
      ok := true;
    }

    /** content_get: bisect, and rewind the descriptor that is found. */
    method Get(key: Bytes, kernel: Kernel) returns (fd: int)
      requires Valid() && OpenIn(table, kernel.fds)
      modifies kernel`fds
      ensures fd == Lookup(table, key)
      ensures fd == -1 || 0 <= fd < |old(kernel.fds)|
      ensures kernel.fds == if fd < 0 then old(kernel.fds) else SeekStart(old(kernel.fds), fd)
    {
      var i := Find(key);
      fd := if i < 0 then -1 else items[i].fildes;
      if fd >= 0 {
        kernel.fds := SeekStart(kernel.fds, fd);
      }
    }

    /** The bisection loop. */
    method Find(key: Bytes) returns (r: int)
      requires Valid()
      ensures r == Search(table, key, 0, |table| - 1)
      ensures 0 <= r ==> items[r] == table[r]
    {
      var lo, hi := 0, nitems - 1;
      while lo <= hi
        invariant 0 <= lo && hi < nitems
        invariant Search(table, key, 0, |table| - 1) == Search(table, key, lo, hi)
        decreases hi - lo + 1
      {
        var mid := lo + (hi - lo) / 2;
        var cmp := StrCmp(key, items[mid].key);
        assert items[mid] == table[mid];
        if cmp < 0 {
          hi := mid - 1;
        } else if cmp > 0 {
          lo := mid + 1;
        } else {
          return mid;
        }
      }
      return -1;
    }
  }
}
