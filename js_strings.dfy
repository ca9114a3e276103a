/**
 * The JavaScript string operations the build scripts and the loader rely on, over
 * `string` (a sequence of Unicode scalar values): `trim`, `indexOf`/`includes`,
 * `startsWith`/`endsWith`, `split` on one character, `join`, `substring`, and `replace`
 * with a literal pattern (first occurrence, or every occurrence for a `/g` regex).
 */
module JsStrings {
  import opened Wrappers

  /** Line terminators: the characters `.` in a regular expression does not match. */
  predicate IsLineTerminator(c: char) {
    c == '\n' || c == '\r' || c == '\U{2028}' || c == '\U{2029}'
  }

  /** The regular-expression class `\s`; `String.prototype.trim` strips exactly this set. */
  predicate IsSpace(c: char) {
    || IsLineTerminator(c)
    || c == '\t' || c == '\U{000B}' || c == '\U{000C}' || c == ' '
    || c == '\U{00A0}' || c == '\U{1680}' || ('\U{2000}' <= c <= '\U{200A}')
    || c == '\U{202F}' || c == '\U{205F}' || c == '\U{3000}' || c == '\U{FEFF}'
  }

  predicate IsAsciiLetter(c: char) {
    'a' <= c <= 'z' || 'A' <= c <= 'Z'
  }

  predicate IsDigit(c: char) {
    '0' <= c <= '9'
  }

  /** The regular-expression class `\w` (no `i` flag, so ASCII only). */
  predicate IsWordChar(c: char) {
    IsAsciiLetter(c) || IsDigit(c) || c == '_'
  }

  predicate StartsWith(s: string, p: string) {
    |p| <= |s| && s[..|p|] == p
  }

  predicate EndsWith(s: string, p: string) {
    |p| <= |s| && s[|s| - |p|..] == p
  }

  /** `p` occurs in `s` starting at index `i`. */
  predicate OccursAt(s: string, p: string, i: nat) {
    i + |p| <= |s| && s[i..i + |p|] == p
  }

  /** `s.indexOf(p, from)`: the first occurrence of `p` at or after `from`, if any. */
  function IndexOf(s: string, p: string, from: nat): (r: Option<nat>)
    ensures r.Some? ==> from <= r.value && OccursAt(s, p, r.value)
    ensures forall j: nat :: from <= j && (r.None? || j < r.value) ==> !OccursAt(s, p, j)
    decreases |s| - from
  {
    if from + |p| > |s| then None
    else if OccursAt(s, p, from) then Some(from)
    else IndexOf(s, p, from + 1)
  }

  /** `s.includes(p)`. */
  predicate Includes(s: string, p: string) {
    IndexOf(s, p, 0).Some?
  }

  lemma IncludesAt(s: string, p: string, i: nat)
    requires OccursAt(s, p, i)
    ensures Includes(s, p)
  {
  }

  /** The index of the first `c` in `s`. */
  function CharIndex<T(==)>(s: seq<T>, c: T): (i: nat)
    requires c in s
    ensures i < |s| && s[i] == c && c !in s[..i]
  {
    if s[0] == c then 0 else 1 + CharIndex(s[1..], c)
  }

  /** The first `c` is at `i` when `s[i]` is `c` and no `c` comes before it. */
  lemma {:induction false} CharIndexAt<T>(s: seq<T>, c: T, i: nat)
    requires i < |s| && s[i] == c && c !in s[..i]
    ensures CharIndex(s, c) == i
  {
    if i > 0 {
      assert s[0] == s[..i][0];
      assert s[1..][i - 1] == c;
      assert s[..i] == [s[0]] + s[1..][..i - 1];
      CharIndexAt(s[1..], c, i - 1);
    }
  }

  /** In `p + [c] + rest` with no `c` in `p`, the first `c` separates `p` from `rest`. */
  lemma FirstCharSplits<T>(p: seq<T>, c: T, rest: seq<T>)
    requires c !in p
    ensures var s := p + [c] + rest;
      c in s && CharIndex(s, c) == |p| && s[..|p|] == p && s[|p| + 1..] == rest
  {
    var s := p + [c] + rest;
    assert s[..|p|] == p && s[|p|] == c;
    CharIndexAt(s, c, |p|);
    assert s[|p| + 1..] == rest;
  }

  /** The length of the run of characters satisfying `p` at `i`: what a greedy `[...]+` or `[...]*` takes there. */
  function Span(s: string, i: nat, p: char -> bool): (n: nat)
    requires i <= |s|
    ensures i + n <= |s| && (forall k :: i <= k < i + n ==> p(s[k]))
    ensures i + n < |s| ==> !p(s[i + n])
    decreases |s| - i
  {
    if i < |s| && p(s[i]) then 1 + Span(s, i + 1, p) else 0
  }

  /** A run of `n` characters satisfying `p` at `i`, followed by the end or by one that fails `p`, is taken whole. */
  lemma {:induction false} SpanIs(s: string, i: nat, n: nat, p: char -> bool)
    requires i + n <= |s| && forall k :: i <= k < i + n ==> p(s[k])
    requires i + n == |s| || !p(s[i + n])
    ensures Span(s, i, p) == n
    decreases n
  {
    if n > 0 {
      SpanIs(s, i + 1, n - 1, p);
    }
  }

  /** `s.substring(0, n)`. */
  function Take(s: string, n: nat): (r: string)
    ensures |r| == if |s| < n then |s| else n
    ensures StartsWith(s, r)
  {
    if |s| <= n then s else s[..n]
  }

  /** `s.trimStart()`. */
  function TrimStart(s: string): (r: string)
    ensures |r| <= |s| && r == s[|s| - |r|..]
    ensures r == [] || !IsSpace(r[0])
    ensures forall i :: 0 <= i < |s| - |r| ==> IsSpace(s[i])
  {
    if |s| > 0 && IsSpace(s[0]) then TrimStart(s[1..]) else s
  }

  /** `s.trimEnd()`. */
  function TrimEnd(s: string): (r: string)
    ensures |r| <= |s| && r == s[..|r|]
    ensures r == [] || !IsSpace(r[|r| - 1])
    ensures forall i :: |r| <= i < |s| ==> IsSpace(s[i])
  {
    if |s| > 0 && IsSpace(s[|s| - 1]) then TrimEnd(s[..|s| - 1]) else s
  }

  /** `s.trim()`: neither end of the result is `\s`, and a string already so is left alone. */
  function Trim(s: string): (r: string)
    ensures r == [] || (!IsSpace(r[0]) && !IsSpace(r[|r| - 1]))
    ensures (s == [] || (!IsSpace(s[0]) && !IsSpace(s[|s| - 1]))) ==> r == s
  {
    TrimEnd(TrimStart(s))
  }

  /** `trim` only cuts `\s` off either end: the result is a slice of `s` with only `\s` around it. */
  lemma TrimIsSlice(s: string)
    ensures exists a :: Trimmed(s, Trim(s), a)
  {
    var t := TrimStart(s);
    var r := TrimEnd(t);
    TrimmedWitness(s, t, r);
    assert Trim(s) == r;
    assert Trimmed(s, Trim(s), |s| - |t|);
  }

  /** `r` is the slice of `s` at `a`, with only `\s` on either side of it. */
  predicate Trimmed(s: string, r: string, a: nat) {
    && a + |r| <= |s| && r == s[a..a + |r|]
    && (forall i :: 0 <= i < a ==> IsSpace(s[i]))
    && (forall i :: a + |r| <= i < |s| ==> IsSpace(s[i]))
  }

  lemma TrimmedWitness(s: string, t: string, r: string)
    requires |t| <= |s| && t == s[|s| - |t|..] && forall i :: 0 <= i < |s| - |t| ==> IsSpace(s[i])
    requires |r| <= |t| && r == t[..|r|] && forall i :: |r| <= i < |t| ==> IsSpace(t[i])
    ensures Trimmed(s, r, |s| - |t|)
  {
    var a := |s| - |t|;
    assert t == s[a..];
    assert r == t[..|r|];
    forall k | 0 <= k < |r| ensures r[k] == s[a + k] {
      assert r[k] == t[k];
    }
    assert r == s[a..a + |r|];
    forall i | a + |r| <= i < |s| ensures IsSpace(s[i]) {
      assert s[i] == t[i - a];
    }
  }

  /** `s.split(sep)` for a one-character separator (one code unit, too): at least one piece, none holding `sep`. */
  function Split<T(==)>(s: seq<T>, sep: T): (parts: seq<seq<T>>)
    ensures |parts| >= 1
    ensures forall i :: 0 <= i < |parts| ==> sep !in parts[i]
    decreases |s|
  {
    if sep in s then
      var i := CharIndex(s, sep);
      [s[..i]] + Split(s[i + 1..], sep)
    else
      [s]
  }

  /** `parts.join(sep)`. */
  function Join<T>(parts: seq<seq<T>>, sep: seq<T>): seq<T> {
    if |parts| == 0 then []
    else if |parts| == 1 then parts[0]
    else parts[0] + sep + Join(parts[1..], sep)
  }

  /** Splitting and joining again with the same separator gives back the string. */
  lemma {:induction false} JoinSplit<T>(s: seq<T>, sep: T)
    ensures Join(Split(s, sep), [sep]) == s
    decreases |s|
  {
    if sep in s {
      var i := CharIndex(s, sep);
      var rest := Split(s[i + 1..], sep);
      var parts := [s[..i]] + rest;
      assert Split(s, sep) == parts;
      assert parts[0] == s[..i] && parts[1..] == rest && |parts| >= 2;
      assert Join(parts, [sep]) == s[..i] + [sep] + Join(rest, [sep]);
      JoinSplit(s[i + 1..], sep);
      assert s == s[..i] + [sep] + s[i + 1..];
    }
  }

  /** Joining pieces free of the separator and splitting again gives back the pieces. */
  lemma {:induction false} SplitJoin<T>(parts: seq<seq<T>>, sep: T)
    requires |parts| >= 1
    requires forall i :: 0 <= i < |parts| ==> sep !in parts[i]
    ensures Split(Join(parts, [sep]), sep) == parts
  {
    if |parts| > 1 {
      var rest := Join(parts[1..], [sep]);
      var s := parts[0] + [sep] + rest;
      assert Join(parts, [sep]) == s;
      var i := |parts[0]|;
      assert s[i] == sep && s[..i] == parts[0];
      CharIndexAt(s, sep, i);
      assert s[i + 1..] == rest;
      assert Split(s, sep) == [parts[0]] + Split(rest, sep);
      SplitJoin(parts[1..], sep);
      assert parts == [parts[0]] + parts[1..];
    }
  }

  /** `s.replace(/^pre/, rep)`: replaces `pre` only where `s` starts with it. */
  function ReplacePrefix(s: string, pre: string, rep: string): (r: string)
    ensures StartsWith(s, pre) ==> r == rep + s[|pre|..]
    ensures !StartsWith(s, pre) ==> r == s
  {
    if StartsWith(s, pre) then rep + s[|pre|..] else s
  }

  /** `s.replace(/suf$/, '')`: removes one `suf` from the end, if there is one. */
  function StripSuffix(s: string, suf: string): (r: string)
    ensures EndsWith(s, suf) ==> r + suf == s
    ensures !EndsWith(s, suf) ==> r == s
  {
    if EndsWith(s, suf) then s[..|s| - |suf|] else s
  }

  /** `s.replace(p, rep)` with a string pattern: only the first occurrence is replaced. */
  function ReplaceFirst(s: string, p: string, rep: string): (r: string)
    requires |p| > 0
    ensures !Includes(s, p) ==> r == s
    ensures Includes(s, p) ==>
      var i := IndexOf(s, p, 0).value;
      r == s[..i] + rep + s[i + |p|..] && !Includes(s[..i], p)
  {
    match IndexOf(s, p, 0)
    case None => s
    case Some(i) =>
      NoneBeforeFirst(s, p, i);
      s[..i] + rep + s[i + |p|..]
  }

  /** `s.replace(/p/g, rep)` for a literal, non-empty `p`: left to right, without overlaps. */
  function ReplaceAll(s: string, p: string, rep: string): (r: string)
    requires |p| > 0
    ensures !Includes(s, p) ==> r == s
    decreases |s|
  {
    if |s| == 0 then ""
    else if StartsWith(s, p) then
      IncludesAt(s, p, 0);
      rep + ReplaceAll(s[|p|..], p, rep)
    else
      NotIncludesTail(s, p);
      [s[0]] + ReplaceAll(s[1..], p, rep)
  }

  /** Nothing before the first occurrence of `p` contains `p`. */
  lemma NoneBeforeFirst(s: string, p: string, i: nat)
    requires |p| > 0 && IndexOf(s, p, 0) == Some(i)
    ensures !Includes(s[..i], p)
  {
    if Includes(s[..i], p) {
      var j := IndexOf(s[..i], p, 0).value;
      assert s[..i][j..j + |p|] == s[j..j + |p|];
      assert OccursAt(s, p, j);
    }
  }

  lemma NotIncludesTail(s: string, p: string)
    requires |s| > 0
    ensures !Includes(s, p) ==> !Includes(s[1..], p)
  {
    if Includes(s[1..], p) {
      var j := IndexOf(s[1..], p, 0).value;
      assert s[1..][j..j + |p|] == s[j + 1..j + 1 + |p|];
      IncludesAt(s, p, j + 1);
    }
  }
}
