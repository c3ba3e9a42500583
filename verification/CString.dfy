/**
 Bytes and NUL-terminated strings as C sees them: a C string held in memory is
 the run of bytes before the first NUL. The library functions the program uses
 on such strings are given here by what ISO C99 says they return.
 */
module CString {
  import opened Wrappers

  type byte = x: int | 0 <= x < 256
  type Bytes = seq<byte>

  const NUL: byte := 0
  const TAB: byte := 9
  const LF: byte := 10
  const CR: byte := 13
  const SPACE: byte := 32
  const SLASH: byte := 47
  const BLANKS: Bytes := [SPACE, TAB] // " \t"

  /** Length of the longest prefix of `s` made of bytes inside (or outside) `d`:
      strspn and strcspn, section 7.21.5 of ISO C99. */
  function Span(s: Bytes, d: Bytes, inside: bool): (n: nat)
    ensures n <= |s|
    ensures forall k | 0 <= k < n :: (s[k] in d) == inside
    ensures n < |s| ==> (s[n] in d) != inside
  {
    if s == [] || (s[0] in d) != inside then 0 else 1 + Span(s[1..], d, inside)
  }

  /** The three facts in Span's contract leave one answer. */
  lemma SpanIs(s: Bytes, d: Bytes, inside: bool, n: nat)
    requires n <= |s|
    requires forall k | 0 <= k < n :: (s[k] in d) == inside
    requires n < |s| ==> (s[n] in d) != inside
    ensures Span(s, d, inside) == n
  {
  }

  lemma {:induction false} SpanReaches(s: Bytes, d: Bytes, inside: bool, n: nat)
    requires n <= |s| && forall k | 0 <= k < n :: (s[k] in d) == inside
    ensures Span(s, d, inside) >= n
  {
    if n > 0 {
      SpanReaches(s[1..], d, inside, n - 1);
    }
  }

  function StrLen(mem: Bytes): (n: nat)
    ensures n <= |mem|
  {
    Span(mem, [NUL], false)
  }

  /** The C string that starts at the first byte of `mem`. */
  function CStr(mem: Bytes): (s: Bytes)
    ensures NUL !in s
    ensures s <= mem
    ensures |s| < |mem| ==> mem[|s|] == NUL
  {
    mem[..StrLen(mem)]
  }

  /** A NUL-free string stored with its terminator reads back as itself. */
  lemma CStrOfTerminated(s: Bytes, rest: Bytes)
    requires NUL !in s
    ensures CStr(s + [NUL] + rest) == s
  {
    SpanIs(s + [NUL] + rest, [NUL], false, |s|);
  }

  /** Bytes stored in front of arbitrary memory: the string continues with
      whatever the memory holds. */
  lemma CStrAppend(s: Bytes, rest: Bytes)
    requires NUL !in s
    ensures CStr(s + rest) == s + CStr(rest)
  {
    SpanIs(s + rest, [NUL], false, |s| + StrLen(rest));
  }

  ghost predicate OccursAt(s: Bytes, pat: Bytes, k: nat) {
    k + |pat| <= |s| && s[k..k + |pat|] == pat
  }

  /** strstr, section 7.21.5.7 of ISO C99: the first occurrence of `pat`. */
  function StrStr(s: Bytes, pat: Bytes): (r: Option<nat>)
    ensures r.Some? ==> OccursAt(s, pat, r.value) && forall k | 0 <= k < r.value :: !OccursAt(s, pat, k)
    ensures r.None? ==> forall k: nat :: !OccursAt(s, pat, k)
  {
    StrStrFrom(s, pat, 0)
  }

  /** The contract of StrStr leaves one answer. */
  lemma StrStrIs(s: Bytes, pat: Bytes, k: nat)
    requires OccursAt(s, pat, k) && forall j | 0 <= j < k :: !OccursAt(s, pat, j)
    ensures StrStr(s, pat) == Some(k)
  {
  }

  function StrStrFrom(s: Bytes, pat: Bytes, from: nat): (r: Option<nat>)
    ensures r.Some? ==> from <= r.value && OccursAt(s, pat, r.value)
    ensures r.Some? ==> forall k | from <= k < r.value :: !OccursAt(s, pat, k)
    ensures r.None? ==> forall k | from <= k :: !OccursAt(s, pat, k)
    decreases |s| - from
  {
    if from + |pat| > |s| then None
    else if s[from..from + |pat|] == pat then Some(from)
    else StrStrFrom(s, pat, from + 1)
  }

  /** strcmp, section 7.21.4.2 of ISO C99: the difference of the first bytes
      that differ, the end of a string counting as NUL. */
  function StrCmp(a: Bytes, b: Bytes): int {
    if a == [] && b == [] then 0
    else if a == [] then 0 - b[0]
    else if b == [] then a[0] - 0
    else if a[0] != b[0] then a[0] - b[0]
    else StrCmp(a[1..], b[1..])
  }

  lemma {:induction false} StrCmpZero(a: Bytes, b: Bytes)
    requires NUL !in a && NUL !in b
    ensures StrCmp(a, b) == 0 <==> a == b
  {
    if a != [] && b != [] && a[0] == b[0] {
      StrCmpZero(a[1..], b[1..]);
      assert a == [a[0]] + a[1..] && b == [b[0]] + b[1..];
    } else if a == [] && b != [] {
      assert b[0] in b;
    } else if a != [] && b == [] {
      assert a[0] in a;
    }
  }

  lemma {:induction false} StrCmpFlip(a: Bytes, b: Bytes)
    ensures StrCmp(a, b) == -StrCmp(b, a)
  {
    if a != [] && b != [] && a[0] == b[0] {
      StrCmpFlip(a[1..], b[1..]);
    }
  }

  lemma {:induction false} StrCmpTransitive(a: Bytes, b: Bytes, c: Bytes)
    requires NUL !in a && NUL !in b && NUL !in c
    requires StrCmp(a, b) <= 0 && StrCmp(b, c) <= 0
    ensures StrCmp(a, c) <= 0
    ensures StrCmp(a, b) < 0 || StrCmp(b, c) < 0 ==> StrCmp(a, c) < 0
  {
    if a != [] && b != [] && c != [] && a[0] == b[0] == c[0] {
      StrCmpTransitive(a[1..], b[1..], c[1..]);
    } else if b == [] && a != [] {
      assert a[0] in a;
    } else if c == [] && b != [] {
      assert b[0] in b;
    } else if a == [] && b == [] && c != [] {
      assert c[0] in c;
    }
  }

  /** The first bytes that differ decide. */
  lemma {:induction false} StrCmpDecides(front: Bytes, x: byte, a: Bytes, y: byte, b: Bytes)
    requires x != y
    ensures StrCmp(front + [x] + a, front + [y] + b) == x - y
  {
    if front != [] {
      StrCmpDecides(front[1..], x, a, y, b);
      assert (front + [x] + a)[1..] == front[1..] + [x] + a;
      assert (front + [y] + b)[1..] == front[1..] + [y] + b;
    }
  }
}
