/**
 strtok (section 7.21.5.8 of ISO C99): what it returns as values, what the
 values mean, and the destructive tokenizer over a shared buffer that computes
 them.
 */
module Tokens {
  import opened Wrappers
  import opened CString

  /** Where the first token of `s` starts: after any leading delimiters. */
  function TokenStart(s: Bytes, d: Bytes): (b: nat)
    ensures b <= |s|
  {
    Span(s, d, true)
  }

  /** Where the first token of `s` ends: at the next delimiter, or at the end. */
  function TokenEnd(s: Bytes, d: Bytes): (e: nat)
    ensures TokenStart(s, d) <= e <= |s|
  {
    var b := TokenStart(s, d);
    b + Span(s[b..], d, false)
  }

  function FirstToken(s: Bytes, d: Bytes): (t: Option<Bytes>)
    ensures t.Some? ==> t.value != [] && forall c | c in t.value :: c !in d
    ensures t.None? ==> forall c | c in s :: c in d
  {
    var b := TokenStart(s, d);
    if b == |s| then None else Some(s[b..TokenEnd(s, d)])
  }

  /** What the next call scans: everything past the delimiter that ended the token. */
  function AfterToken(s: Bytes, d: Bytes): (r: Bytes)
    ensures s != [] ==> |r| < |s|
    ensures NUL !in s ==> NUL !in r
  {
    var e := TokenEnd(s, d);
    if e < |s| then s[e + 1..] else []
  }

  /** The tokens that strtok called until it returns NULL hands out. */
  function AllTokens(s: Bytes, d: Bytes): seq<Bytes>
    decreases |s|
  {
    match FirstToken(s, d)
    case None => []
    case Some(t) => [t] + AllTokens(AfterToken(s, d), d)
  }

  /** The plain splitter: cut at every delimiter byte ... */
  function Split(s: Bytes, d: Bytes): (parts: seq<Bytes>)
    ensures parts != []
  {
    if s == [] then [[]]
    else
      var rest := Split(s[1..], d);
      if s[0] in d then [[]] + rest else [[s[0]] + rest[0]] + rest[1..]
  }

  /** ... and drop the empty pieces that runs of delimiters leave. */
  function NonEmpty(parts: seq<Bytes>): seq<Bytes> {
    if parts == [] then []
    else (if parts[0] == [] then [] else [parts[0]]) + NonEmpty(parts[1..])
  }

  lemma NonEmptyCons(x: Bytes, rest: seq<Bytes>)
    ensures NonEmpty([x] + rest) == (if x == [] then [] else [x]) + NonEmpty(rest)
  {
    assert ([x] + rest)[1..] == rest;
  }

  lemma {:induction false} SplitAtSpan(s: Bytes, d: Bytes)
    ensures var n := Span(s, d, false);
            Split(s, d) == if n == |s| then [s] else [s[..n]] + Split(s[n + 1..], d)
  {
    if s != [] && s[0] !in d {
      SplitAtSpan(s[1..], d);
      var n := Span(s, d, false);
      if n < |s| {
        assert s[..n] == [s[0]] + s[1..][..n - 1];
        assert s[n + 1..] == s[1..][n..];
      } else {
        assert s == [s[0]] + s[1..];
      }
    }
  }

  lemma {:induction false} LeadingDelimiter(s: Bytes, d: Bytes)
    requires s != [] && s[0] in d
    ensures FirstToken(s, d) == FirstToken(s[1..], d)
    ensures AfterToken(s, d) == AfterToken(s[1..], d)
  {
    var b := TokenStart(s[1..], d);
    assert TokenStart(s, d) == b + 1;
    assert s[b + 1..] == s[1..][b..];
    assert TokenEnd(s, d) == TokenEnd(s[1..], d) + 1;
    assert s[b + 1..TokenEnd(s, d)] == s[1..][b..TokenEnd(s[1..], d)];
  }

  lemma LeadingWord(s: Bytes, d: Bytes)
    requires s != [] && s[0] !in d
    ensures var n := Span(s, d, false);
            && FirstToken(s, d) == Some(s[..n])
            && AfterToken(s, d) == if n == |s| then [] else s[n + 1..]
  {
    assert s[0..] == s;
    assert TokenStart(s, d) == 0;
  }

  /** strtok until NULL yields exactly the non-empty pieces of the plain split. */
  lemma {:induction false} AllTokensAreTheSplit(s: Bytes, d: Bytes)
    ensures AllTokens(s, d) == NonEmpty(Split(s, d))
    decreases |s|
  {
    if s == [] {
      NonEmptyCons([], []);
    } else if s[0] in d {
      LeadingDelimiter(s, d);
      AllTokensAreTheSplit(s[1..], d);
      NonEmptyCons([], Split(s[1..], d));
    } else {
      var n := Span(s, d, false);
      LeadingWord(s, d);
      SplitAtSpan(s, d);
      if n == |s| {
        NonEmptyCons(s, []);
        assert s[..n] == s;
        assert AllTokens([], d) == [];
      } else {
        AllTokensAreTheSplit(s[n + 1..], d);
        NonEmptyCons(s[..n], Split(s[n + 1..], d));
      }
    }
  }

  /** The token of a string laid out as delimiters, a word, and a delimiter or the end. */
  lemma TokenIs(lead: Bytes, word: Bytes, rest: Bytes, d: Bytes)
    requires forall c | c in lead :: c in d
    requires word != [] && forall c | c in word :: c !in d
    requires rest != [] ==> rest[0] in d
    ensures TokenEnd(lead + word + rest, d) == |lead| + |word|
    ensures FirstToken(lead + word + rest, d) == Some(word)
    ensures AfterToken(lead + word + rest, d) == if rest == [] then [] else rest[1..]
  {
    hide Span;
    var s := lead + word + rest;
    assert s[|lead|] == word[0];
    SpanIs(s, d, true, |lead|);
    assert s[|lead|..] == word + rest;
    SpanIs(word + rest, d, false, |word|);
    assert s[|lead|..|lead| + |word|] == word;
    if rest != [] {
      assert s[|lead| + |word| + 1..] == rest[1..];
    }
  }

  /** A pointer moved within a string sees the rest of that string. */
  lemma CStrSuffix(m: Bytes, k: nat)
    requires k <= |CStr(m)|
    ensures CStr(m[k..]) == CStr(m)[k..]
  {
    var s := CStr(m);
    assert forall i | 0 <= i < |s| :: m[i] == s[i] && s[i] in s;
    SpanIs(m[k..], [NUL], false, |s| - k);
  }

  /** Writing NUL at offset `e` of a string ends the string there, wherever before it is read from. */
  lemma CStrCut(m: Bytes, b: nat, e: nat)
    requires b <= e < |CStr(m)|
    ensures CStr(m[e := NUL][b..]) == CStr(m)[b..e]
  {
    var s := CStr(m);
    assert forall i | 0 <= i < |s| :: m[i] == s[i] && s[i] in s;
    SpanIs(m[e := NUL][b..], [NUL], false, e - b);
  }

  /** Writing NUL at address `e` inside the string at `p`: what pointers `b` into that string then see. */
  lemma CutEffect(m: Bytes, m': Bytes, p: nat, b: nat, e: nat)
    requires p <= b <= e && p < |m| && m[|m| - 1] == NUL
    requires e - p <= |CStr(m[p..])| && e < |m| && m' == m[e := NUL]
    ensures CStr(m'[b..]) == CStr(m[p..])[b - p..e - p]
  {
    hide CStr, Span;
    var t := m[p..];
    var s := CStr(t);
    assert m'[b..] == t[e - p := NUL][b - p..];
    if e - p < |s| {
      CStrCut(t, b - p, e - p);
    } else {
      EndsAt(t, e - p);
      assert t[e - p := NUL] == t;
      CStrSuffix(t, b - p);
    }
  }

  /** ... and what is left to scan. */
  lemma CutRest(m: Bytes, m': Bytes, p: nat, e: nat)
    requires p <= e && p < |m| && m[|m| - 1] == NUL
    requires e - p <= |CStr(m[p..])| && e < |m| && m' == m[e := NUL]
    ensures m[e] == NUL <==> e - p == |CStr(m[p..])|
    ensures m[e] == NUL ==> CStr(m'[e..]) == []
    ensures m[e] != NUL ==> e + 1 < |m| && CStr(m'[e + 1..]) == CStr(m[p..])[e + 1 - p..]
  {
    var t := m[p..];
    EndsAt(t, e - p);
    if m[e] == NUL {
      assert m' == m;
      CStrSuffix(t, e - p);
      assert m'[e..] == t[e - p..];
    } else {
      EndsAt(t, |t| - 1);
      CStrSuffix(t, e + 1 - p);
      assert m'[e + 1..] == t[e + 1 - p..];
    }
  }

  lemma EndsAt(m: Bytes, k: nat)
    requires k < |m|
    ensures k <= |CStr(m)| ==> (m[k] == NUL <==> k == |CStr(m)|)
    ensures m[k] == NUL ==> |CStr(m)| <= k
  {
    var s := CStr(m);
    assert k < |s| ==> s[k] in s;
  }

  /**
   strtok with its static pointer, over the buffer it cuts up. The last cell is
   the terminator of the string the buffer was filled with; strtok only ever
   writes NUL, so it stays.
   */
  class Tokenizer {
    const buf: array<byte>
    var save: nat

    ghost predicate Valid()
      reads this, buf
    {
      save < buf.Length && buf[buf.Length - 1] == NUL
    }

    /** The C string at pointer `p`. */
    ghost function At(p: nat): Bytes
      reads buf
      requires p < buf.Length
    {
      CStr(buf[..][p..])
    }

    /** A copy of `s`, as strcpy makes it. */
    constructor (s: Bytes)
      requires NUL !in s
      ensures Valid() && fresh(buf)
      ensures buf.Length == |s| + 1 && At(0) == s
    {
      buf := new byte[|s| + 1](i requires 0 <= i <= |s| => if i < |s| then s[i] else NUL);
      save := 0;
      new;
      assert buf[..][0..] == s + [NUL] + [];
      CStrOfTerminated(s, []);
    }

    /** strspn and strcspn from pointer `p`. */
    method Scan(p: nat, d: Bytes, inside: bool) returns (q: nat)
      requires Valid() && p < buf.Length
      ensures q == p + Span(At(p), d, inside)
    {
      q := p;
      ghost var s := At(p);
      while buf[q] != NUL && (buf[q] in d) == inside
        invariant p <= q < buf.Length
        invariant q - p <= |s|
        invariant forall k | 0 <= k < q - p :: (s[k] in d) == inside
        decreases buf.Length - q
      {
        assert buf[..][p..][q - p] == buf[q];
        assert q - p < |s|;
        q := q + 1;
      }
      assert buf[..][p..][q - p] == buf[q];
      assert q - p < |s| ==> s[q - p] == buf[q] && s[q - p] in s;
      SpanIs(s, d, inside, q - p);
    }

    /** The string at `p`, as strlen and strcmp walk it. */
    method Read(p: nat) returns (s: Bytes)
      requires Valid() && p < buf.Length
      ensures s == At(p)
    {
      var q := Scan(p, [], false);
      SpanIs(At(p), [], false, |At(p)|);
      s := buf[..][p..q];
    }

    /** The bounds of the first token of the string at `p`. */
    method Find(p: nat, d: Bytes) returns (b: nat, e: nat)
      requires Valid() && p < buf.Length
      ensures b == p + TokenStart(At(p), d) && e == p + TokenEnd(At(p), d) && e < buf.Length
      ensures buf[b] == NUL <==> FirstToken(At(p), d).None?
    {
      b := Scan(p, d, true);
      Moved(p, b);
      e := Scan(b, d, false);
    }

    /** One call; `restart` when the argument is the buffer rather than NULL. */
    method Strtok(restart: bool, d: Bytes) returns (tok: Option<nat>)
      requires Valid()
      modifies this, buf
      ensures Valid()
      ensures var p := if restart then 0 else old(save);
              var s := old(At(p));
              && At(p) == s[..TokenEnd(s, d)]
              && At(save) == AfterToken(s, d)
              && (tok.None? <==> FirstToken(s, d).None?)
              && (tok.Some? ==> tok.value < buf.Length && FirstToken(s, d) == Some(At(tok.value)))
    {
      hide CStr, Span;
      var p := if restart then 0 else save;
      ghost var s := At(p);
      var b, e := Find(p, d);
      tok := if buf[b] == NUL then None else Some(b);
      CutAt(p, b, e);
      assert e - p == TokenEnd(s, d);
    }

    /** End the token found at `b` at offset `e`, and remember where to go on. */
    method CutAt(ghost p: nat, ghost b: nat, e: nat)
      requires Valid()
      requires p <= b <= e && p < buf.Length && e - p <= |At(p)|
      modifies this, buf
      ensures Valid() && b < buf.Length
      ensures At(p) == old(At(p))[..e - p]
      ensures At(b) == old(At(p))[b - p..e - p]
      ensures At(save) == if e - p < |old(At(p))| then old(At(p))[e + 1 - p..] else []
    {
      ghost var m := buf[..];
      Moved(p, e);
      save := if buf[e] == NUL then e else e + 1;
      buf[e] := NUL;
      CutEffect(m, buf[..], p, p, e);
      CutEffect(m, buf[..], p, b, e);
      CutRest(m, buf[..], p, e);
    }

    /** A pointer moved within a string sees the rest of that string. */
    lemma Moved(p: nat, q: nat)
      requires Valid() && p <= q < buf.Length && q - p <= |At(p)|
      ensures At(q) == At(p)[q - p..]
      ensures buf[q] == NUL <==> q - p == |At(p)|
    {
      var m := buf[..][p..];
      CStrSuffix(m, q - p);
      assert m[q - p..] == buf[..][q..];
      EndsAt(m, q - p);
    }
  }
}
