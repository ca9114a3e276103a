/**
 * The placeholder rewrite both build scripts run over the compiled output: every
 * `[VI]{{key}}[/VI]` is handed, as the whole match and the key, to a callback whose text
 * takes its place. The pattern is `/\[VI\]\{\{(.+?)\}\}\[\/VI\]/g`: the key is the SHORTEST
 * non-empty run of characters other than line terminators that is followed by `}}[/VI]`,
 * and the search resumes after each match.
 */
module Placeholders {
  import opened Wrappers
  import opened JsStrings
  import opened JsValues

  const Open := "[VI]{{"
  const Close := "}}[/VI]"

  /** A replacer: given the whole match and the key, the text to put in its place, or what it throws. */
  type Replacer = (string, string) -> Result<string, Thrown>

  /**
   * The length of the lazy key that starts at `j`, trying lengths `k` upwards: `(.+?)` gives
   * up at the first line terminator and stops at the first `}}[/VI]`.
   */
  function KeyLength(s: string, j: nat, k: nat): (r: Option<nat>)
    requires k >= 1
    ensures r.Some? ==> k <= r.value && OccursAt(s, Close, j + r.value)
    decreases |s| - (j + k)
  {
    if j + k + |Close| > |s| then None
    else if IsLineTerminator(s[j + k - 1]) then None
    else if OccursAt(s, Close, j + k) then Some(k)
    else KeyLength(s, j, k + 1)
  }

  /** `}}[/VI]` starts at `i`. */
  predicate CloseAt(s: string, i: nat) {
    OccursAt(s, Close, i)
  }

  /** What the search finds is a lazy match: no line break in it, and no earlier `}}[/VI]`. */
  lemma {:induction false} KeyLengthLazy(s: string, j: nat, k: nat)
    requires k >= 1 && KeyLength(s, j, k).Some?
    ensures var n := KeyLength(s, j, k).value;
      (forall i :: j + k - 1 <= i < j + n ==> !IsLineTerminator(s[i])) &&
      (forall i :: j + k <= i < j + n ==> !CloseAt(s, i))
    decreases |s| - (j + k)
  {
    assert !IsLineTerminator(s[j + k - 1]);
    if !OccursAt(s, Close, j + k) {
      assert KeyLength(s, j, k) == KeyLength(s, j, k + 1);
      KeyLengthLazy(s, j, k + 1);
    }
  }

  /** The key of a placeholder at the start of `s`, if one starts there. */
  function KeyAtStart(s: string): (r: Option<nat>)
    ensures r.Some? ==> StartsWith(s, Open) && r.value >= 1 && |Open| + r.value + |Close| <= |s|
  {
    if StartsWith(s, Open) then KeyLength(s, |Open|, 1) else None
  }

  /**
   * The key handed over is what `(.+?)` captures: at least one character, no line break,
   * followed by `}}[/VI]`, and no shorter key would be.
   */
  lemma LazyKey(s: string)
    requires KeyAtStart(s).Some?
    ensures var k := KeyAtStart(s).value;
      k >= 1 && OccursAt(s, Close, |Open| + k) &&
      (forall i :: |Open| <= i < |Open| + k ==> !IsLineTerminator(s[i])) &&
      (forall i :: |Open| + 1 <= i < |Open| + k ==> !CloseAt(s, i))
  {
    KeyLengthLazy(s, |Open|, 1);
  }

  /** Two pieces of output in order: the first failure wins, otherwise the texts are joined. */
  function Glue(a: Result<string, Thrown>, b: Result<string, Thrown>): (r: Result<string, Thrown>)
    ensures r.Ok? <==> a.Ok? && b.Ok?
    ensures a.Err? ==> r == a
    ensures r.Ok? ==> r.value == a.value + b.value
  {
    if a.Err? then a else if b.Err? then b else Ok(a.value + b.value)
  }

  /** Glueing is associative. */
  lemma GlueAssoc(a: Result<string, Thrown>, b: Result<string, Thrown>, c: Result<string, Thrown>)
    ensures Glue(a, Glue(b, c)) == Glue(Glue(a, b), c)
  {
    if a.Ok? && b.Ok? && c.Ok? {
      assert a.value + (b.value + c.value) == a.value + b.value + c.value;
    }
  }

  /** The replacer throws for no match and key. */
  ghost predicate NeverThrows(f: Replacer) {
    forall m, key :: f(m, key).Ok?
  }

  /** The replacer throws `e` for some match and key. */
  ghost predicate CanThrow(f: Replacer, e: Thrown) {
    exists m, key :: f(m, key) == Err(e)
  }

  /**
   * `s.replace(regex, f)`: callbacks run left to right, and the first one that throws ends the
   * rewrite, so what it throws is something the replacer throws.
   */
  function Patch(s: string, f: Replacer): (r: Result<string, Thrown>)
    ensures NeverThrows(f) ==> r.Ok?
    ensures r.Err? ==> CanThrow(f, r.error)
    decreases |s|
  {
    if |s| == 0 then Ok("")
    else
      match KeyAtStart(s)
      case Some(k) =>
        var e := |Open| + k + |Close|;
        Glue(f(s[..e], s[|Open|..|Open| + k]), Patch(s[e..], f))
      case None => Glue(Ok([s[0]]), Patch(s[1..], f))
  }

  /** A replacer that gives every match back as it was leaves the text unchanged. */
  lemma {:induction false} VerbatimUnchanged(s: string, f: Replacer)
    requires forall m, key :: f(m, key) == Ok(m)
    ensures Patch(s, f) == Ok(s)
    decreases |s|
  {
    if |s| > 0 {
      match KeyAtStart(s)
      case Some(k) =>
        var e := |Open| + k + |Close|;
        VerbatimUnchanged(s[e..], f);
        assert s[..e] + s[e..] == s;
      case None =>
        VerbatimUnchanged(s[1..], f);
        assert [s[0]] + s[1..] == s;
    }
  }

  /** Text in which no placeholder can start (it has no `[`) is copied through. */
  lemma {:induction false} PlainPrefix(pre: string, rest: string, f: Replacer)
    requires '[' !in pre
    ensures Patch(pre + rest, f) == Glue(Ok(pre), Patch(rest, f))
    decreases |pre|
  {
    if |pre| > 0 {
      var s := pre + rest;
      assert s[0] == pre[0] && s[1..] == pre[1..] + rest;
      PatchPlainChar(s, f);
      PlainPrefix(pre[1..], rest, f);
      GlueAssoc(Ok([pre[0]]), Ok(pre[1..]), Patch(rest, f));
      assert [pre[0]] + pre[1..] == pre;
    } else {
      assert pre + rest == rest;
      GlueEmpty(Patch(rest, f));
    }
  }

  /** Text without a `[` holds no placeholder and comes out unchanged, whatever the replacer. */
  lemma NoBracketUnchanged(s: string, f: Replacer)
    requires '[' !in s
    ensures Patch(s, f) == Ok(s)
  {
    PlainPrefix(s, "", f);
    assert s + "" == s;
  }

  /** A first character other than `[` is copied and the rewrite goes on after it. */
  lemma PatchPlainChar(s: string, f: Replacer)
    requires |s| > 0 && s[0] != '['
    ensures Patch(s, f) == Glue(Ok([s[0]]), Patch(s[1..], f))
  {
    assert !StartsWith(s, Open) by {
      assert Open[0] == '[';
    }
    assert KeyAtStart(s) == None;
  }

  lemma GlueEmpty(r: Result<string, Thrown>)
    ensures Glue(Ok(""), r) == r
  {
    if r.Ok? {
      assert "" + r.value == r.value;
    }
  }

  /** The key a placeholder `[VI]{{key}}[/VI]` hands over, when the key has no `}` and no line break. */
  predicate PlainKey(key: string) {
    |key| >= 1 && forall i :: 0 <= i < |key| ==> key[i] != '}' && !IsLineTerminator(key[i])
  }

  /** A placeholder at the start is found with exactly its key. */
  lemma PlaceholderKey(key: string, rest: string)
    requires PlainKey(key)
    ensures var s := Open + key + Close + rest;
      KeyAtStart(s) == Some(|key|) && s[..|Open| + |key| + |Close|] == Open + key + Close &&
      s[|Open|..|Open| + |key|] == key && s[|Open| + |key| + |Close|..] == rest
  {
    var s := Open + key + Close + rest;
    var j := |Open|;
    assert s[..j] == Open;
    assert s[j..j + |key|] == key;
    assert s[j + |key|..j + |key| + |Close|] == Close;
    assert s[..j + |key| + |Close|] == Open + key + Close;
    assert s[j + |key| + |Close|..] == rest;
    forall k | 1 <= k <= |key| ensures KeyLength(s, j, k) == Some(|key|) {
      KeyFound(s, key, k);
    }
  }

  /** From any shorter length, the search runs on to the whole key. */
  lemma {:induction false} KeyFound(s: string, key: string, k: nat)
    requires PlainKey(key) && 1 <= k <= |key|
    requires OccursAt(s, key, |Open|) && OccursAt(s, Close, |Open| + |key|)
    ensures KeyLength(s, |Open|, k) == Some(|key|)
    decreases |key| - k
  {
    var j := |Open|;
    assert s[j + k - 1] == s[j..j + |key|][k - 1] == key[k - 1];
    if k < |key| {
      assert !OccursAt(s, Close, j + k) by {
        assert s[j + k] == s[j..j + |key|][k] == key[k];
        assert Close[0] == '}';
      }
      KeyFound(s, key, k + 1);
    }
  }

  /** A placeholder at the start is replaced by the replacer's text for its key. */
  lemma PatchPlaceholder(key: string, rest: string, f: Replacer)
    requires PlainKey(key)
    ensures Patch(Open + key + Close + rest, f) == Glue(f(Open + key + Close, key), Patch(rest, f))
  {
    PlaceholderKey(key, rest);
  }

  /** One placeholder is replaced by the replacer's text for its key; the rest is rewritten after it. */
  lemma OnePlaceholder(pre: string, key: string, rest: string, f: Replacer)
    requires '[' !in pre && PlainKey(key)
    ensures Patch(pre + Open + key + Close + rest, f) ==
      Glue(Ok(pre), Glue(f(Open + key + Close, key), Patch(rest, f)))
  {
    var p := Open + key + Close + rest;
    assert pre + Open + key + Close + rest == pre + p;
    PlainPrefix(pre, p, f);
    PatchPlaceholder(key, rest, f);
  }

  /** In otherwise plain text, a single placeholder is replaced by the replacer's text and nothing else changes. */
  lemma SinglePlaceholder(pre: string, key: string, rest: string, f: Replacer, text: string)
    requires '[' !in pre && '[' !in rest && PlainKey(key)
    requires f(Open + key + Close, key) == Ok(text)
    ensures Patch(pre + Open + key + Close + rest, f) == Ok(pre + text + rest)
  {
    OnePlaceholder(pre, key, rest, f);
    NoBracketUnchanged(rest, f);
    assert pre + (text + rest) == pre + text + rest;
  }

  /** A placeholder the replacer gives back as it was leaves the whole text unchanged. */
  lemma SingleVerbatim(pre: string, key: string, rest: string, f: Replacer)
    requires '[' !in pre && '[' !in rest && PlainKey(key)
    requires f(Open + key + Close, key) == Ok(Open + key + Close)
    ensures Patch(pre + Open + key + Close + rest, f) == Ok(pre + Open + key + Close + rest)
  {
    SinglePlaceholder(pre, key, rest, f, Open + key + Close);
    Regroup(pre, Open, key, Close, rest);
  }

  lemma Regroup(a: string, b: string, c: string, d: string, e: string)
    ensures a + (b + c + d) + e == a + b + c + d + e
  {
  }
}
