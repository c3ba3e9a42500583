/** openFile: making the directories of a local path, by cutting the path string at each slash in turn. */
module Download {
  import opened Wrappers
  import opened CString

  datatype MkdirResult = Created | Exists | Refused

  /** The file system as openFile drives it: the directories asked for, in
      order, and what came of each. */
  class FileTree {
    var asked: seq<Bytes>
    ghost var results: seq<MkdirResult>

    method Mkdir(path: Bytes) returns (r: MkdirResult)
      modifies this
      ensures asked == old(asked) + [path] && results == old(results) + [r]
    {
      asked := asked + [path];
      r :| true;
      results := results + [r];
    }
  }

  /** The directory prefixes of `s` that end at a slash at or after `from`. */
  function DirPrefixes(s: Bytes, from: nat): seq<Bytes>
    decreases |s| - from
  {
    if from >= |s| then []
    else if s[from] == SLASH then [s[..from]] + DirPrefixes(s, from + 1)
    else DirPrefixes(s, from + 1)
  }

  /** The first slash at or after `from`, or the end. */
  function NextSlash(s: Bytes, from: nat): (k: nat)
    requires from <= |s|
    ensures from <= k <= |s|
    ensures k < |s| ==> s[k] == SLASH
    ensures forall i | from <= i < k :: s[i] != SLASH
    decreases |s| - from
  {
    if from == |s| || s[from] == SLASH then from else NextSlash(s, from + 1)
  }

  lemma {:induction false} PrefixesFromSlash(s: Bytes, from: nat)
    requires from <= |s|
    ensures var k := NextSlash(s, from);
            DirPrefixes(s, from) == if k == |s| then [] else [s[..k]] + DirPrefixes(s, k + 1)
    decreases |s| - from
  {
    if from < |s| && s[from] != SLASH {
      PrefixesFromSlash(s, from + 1);
    }
  }

  /** The entries are directory prefixes of `s` that end at or after `from`. */
  ghost predicate AllPrefixes(ds: seq<Bytes>, s: Bytes, from: nat) {
    forall i | 0 <= i < |ds| :: from <= |ds[i]| < |s| && s[|ds[i]|] == SLASH && ds[i] == s[..|ds[i]|]
  }

  lemma {:induction false} EntriesArePrefixes(s: Bytes, from: nat)
    ensures AllPrefixes(DirPrefixes(s, from), s, from)
    decreases |s| - from
  {
    if from < |s| {
      EntriesArePrefixes(s, from + 1);
    }
  }

  /** Every proper directory prefix is asked for ... */
  lemma {:induction false} EveryDirectoryIsMade(s: Bytes, from: nat, k: nat)
    requires from <= k < |s| && s[k] == SLASH
    ensures s[..k] in DirPrefixes(s, from)
    decreases |s| - from
  {
    if k > from {
      EveryDirectoryIsMade(s, from + 1, k);
    } else {
      assert DirPrefixes(s, from)[0] == s[..k];
    }
  }

  /** Each entry is a proper prefix of all that follow. */
  ghost predicate Nested(ds: seq<Bytes>) {
    forall i, j | 0 <= i < j < |ds| :: ds[i] < ds[j]
  }

  lemma NestedCons(d: Bytes, ds: seq<Bytes>)
    requires Nested(ds) && forall j | 0 <= j < |ds| :: d < ds[j]
    ensures Nested([d] + ds)
  {
  }

  /** ... and parents before their children. */
  lemma {:induction false} ParentsFirst(s: Bytes, from: nat)
    ensures Nested(DirPrefixes(s, from))
    decreases |s| - from
  {
    if from < |s| {
      ParentsFirst(s, from + 1);
      EntriesArePrefixes(s, from + 1);
      var rest := DirPrefixes(s, from + 1);
      forall j | 0 <= j < |rest|
        ensures s[..from] < rest[j]
      {
        assert s[..from] == s[..|rest[j]|][..from];
      }
      NestedCons(s[..from], rest);
    }
  }

  /** strchr(&path[from], '/'): the index, or None. */
  method FindSlash(path: array<byte>, from: nat) returns (r: Option<nat>)
    requires from <= |CStr(path[..])| < path.Length
    ensures var s := CStr(path[..]); var k := NextSlash(s, from);
            r == if k == |s| then None else Some(k)
  {
    var cur := from;
    ghost var s := CStr(path[..]);
    while path[cur] != NUL && path[cur] != SLASH
      invariant from <= cur <= |s|
      invariant NextSlash(s, from) == NextSlash(s, cur)
      decreases |s| - cur
    {
      assert cur < |s| && s[cur] == path[..][cur];
      cur := cur + 1;
    }
    assert cur < |s| ==> s[cur] == path[..][cur] && s[cur] in s;
    r := if path[cur] == NUL then None else Some(cur);
  }

  /** How the calls of mkdir went: on to the last, or to the one that was refused. */
  ghost predicate Went(ok: bool, made: seq<MkdirResult>) {
    && (ok <==> Refused !in made)
    && (!ok ==> made != [] && made[|made| - 1] == Refused && Refused !in made[..|made| - 1])
  }

  lemma WentOn(made: seq<MkdirResult>, r: MkdirResult)
    requires Went(true, made)
    ensures Went(r != Refused, made + [r])
  {
    assert (made + [r])[..|made|] == made;
  }

  /** openFile up to fopen; false where it exits the process because a directory
      cannot be made. One that is there already is no reason to. `made` is what
      came of the calls, one for each directory prefix in order; they go on to the
      last unless one is refused. The path is not empty: local names end in a counter. */
  method OpenFile(path: array<byte>, tree: FileTree) returns (ok: bool, ghost made: seq<MkdirResult>)
    requires 0 < |CStr(path[..])| < path.Length
    modifies path, tree
    ensures tree.results == old(tree.results) + made
    ensures ok <==> Refused !in made
    ensures !ok ==> made != [] && made[|made| - 1] == Refused && Refused !in made[..|made| - 1]
    ensures var all := DirPrefixes(old(CStr(path[..])), 1);
            |made| <= |all| && tree.asked == old(tree.asked) + all[..|made|] && (ok ==> |made| == |all|)
    ensures if ok then path[..] == old(path[..])
            else CStr(path[..]) == DirPrefixes(old(CStr(path[..])), 1)[|made| - 1]
  {
    hide CStr, DirPrefixes;
    ghost var done;
    ok, done, made := MakeDirectories(path, tree);
    ghost var all := DirPrefixes(old(CStr(path[..])), 1);
    assert all[..|done|] == done;
  }

  /** The loop. `done` lists the directories asked for. */
  method MakeDirectories(path: array<byte>, tree: FileTree)
      returns (ok: bool, ghost done: seq<Bytes>, ghost made: seq<MkdirResult>)
    requires 0 < |CStr(path[..])| < path.Length
    modifies path, tree
    ensures tree.results == old(tree.results) + made && tree.asked == old(tree.asked) + done
    ensures |made| == |done| && Went(ok, made)
    ensures done <= DirPrefixes(old(CStr(path[..])), 1)
    ensures if ok then path[..] == old(path[..]) && done == DirPrefixes(old(CStr(path[..])), 1)
            else done != [] && CStr(path[..]) == done[|done| - 1]
  {
    hide CStr, DirPrefixes, NextSlash, Went;
    var prev := 0;
    ghost var s := CStr(path[..]);
    ghost var mem := path[..];
    ghost var all := DirPrefixes(s, 1);
    done, made := [], [];
    WentNowhere();
    var cur := FindSlash(path, prev + 1);
    while cur != None
      invariant prev < |s| && path[..] == mem
      invariant tree.asked == old(tree.asked) + done && tree.results == old(tree.results) + made
      invariant |made| == |done| && Went(true, made)
      invariant all == done + DirPrefixes(s, prev + 1)
      invariant var k := NextSlash(s, prev + 1); cur == if k == |s| then None else Some(k)
      decreases |s| - prev
    {
      ghost var k := NextDirectory(s, prev + 1, done, all);
      ghost var n := |tree.results|;
      ok := MakeDirectory(path, tree, cur.value);
      WentOn(made, tree.results[n]);
      done, made := done + [s[..k]], made + [tree.results[n]];
      if !ok {
        CutAtSlash(mem, k);
        return;
      }
      prev := cur.value;
      cur := FindSlash(path, prev + 1);
    }
    ghost var _ := NextDirectory(s, prev + 1, done, all);
    ok := true;
  }

  lemma WentNowhere()
    ensures Went(true, [])
  {
  }

  /** What has been asked for, with what is to come from `from` on, is all there is. */
  lemma NextDirectory(s: Bytes, from: nat, done: seq<Bytes>, all: seq<Bytes>) returns (k: nat)
    requires from <= |s| && all == done + DirPrefixes(s, from)
    ensures k == NextSlash(s, from)
    ensures if k == |s| then all == done else all == (done + [s[..k]]) + DirPrefixes(s, k + 1)
    ensures k < |s| ==> done + [s[..k]] <= all
  {
    k := NextSlash(s, from);
    PrefixesFromSlash(s, from);
    if k < |s| {
      assert done + ([s[..k]] + DirPrefixes(s, k + 1)) == (done + [s[..k]]) + DirPrefixes(s, k + 1);
    }
  }

  /** One pass of the loop: end the string at the slash, mkdir, put the slash back. */
  method MakeDirectory(path: array<byte>, tree: FileTree, cur: nat) returns (ok: bool)
    requires cur < |CStr(path[..])| && CStr(path[..])[cur] == SLASH
    modifies path, tree
    ensures tree.asked == old(tree.asked) + [old(CStr(path[..]))[..cur]]
    ensures |tree.results| == |old(tree.results)| + 1
    ensures tree.results == old(tree.results) + [tree.results[|old(tree.results)|]]
    ensures ok <==> tree.results[|old(tree.results)|] != Refused
    ensures path[..] == if ok then old(path[..]) else old(path[..])[cur := NUL]
  {
    ghost var mem := path[..];
    CutAtSlash(mem, cur);
    path[cur] := NUL;
    assert path[..] == mem[cur := NUL];
    var r := tree.Mkdir(CStr(path[..]));
    ok := r != Refused;
    if ok {
      path[cur] := SLASH;
      assert path[..] == mem;
    }
  }

  lemma CutAtSlash(mem: Bytes, k: nat)
    requires k < |CStr(mem)|
    ensures CStr(mem[k := NUL]) == CStr(mem)[..k]
  {
    var s := CStr(mem);
    assert forall i | 0 <= i < |s| :: mem[i] == s[i] && s[i] in s;
    SpanIs(mem[k := NUL], [NUL], false, k);
  }
}
