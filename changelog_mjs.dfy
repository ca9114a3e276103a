/**
 * `scripts/actions/changelog.mjs`: the ES-module changelog script. Versions are rendered the
 * way changelog.js renders them, with a larger `typeMap` and a space before the author. It
 * differs in three places: a subject may hold several conventional commits, each ending in
 * an emoji description; `generateChangelog` puts a "Latest" section of the unreleased commits
 * (and of the lines of a pending commit message) before the versions; and, run as a
 * commit-msg hook, it puts a label's emoji in front of each conventional line of the message.
 */
module ChangelogMjs {
  import opened Wrappers
  import opened JsStrings
  import opened Lists
  import OrderedMaps
  import opened Changelog
  import opened JsValues

  /** The `typeMap` of changelog.mjs. */
  const TypeMapMjs: TypeMap := [
    ("feat", "✨ Features"), ("fix", "🐛 Bug Fixes"), ("docs", "📚 Documentation"),
    ("style", "💄 Styles"), ("refactor", "♻️ Code Refactoring"), ("test", "✅ Tests"),
    ("chore", ChoresLabel), ("ci", "⚙️ Continuous Integration"),
    ("perf", "⚡ Performance Improvements"), ("build", "🏗️ Build System"), ("revert", "⏪ Reverts"),
    ("lint", "🧹 Linting"), ("pretty", "🎨 Code Formatting"), ("config", "🛠️ Configuration"),
    ("deps", "📦 Dependency Updates"), ("release", "🚀 Release"), ("wip", "🚧 Work In Progress")]

  /** Every entry of a version is shown under a label that gets a section in changelog.mjs's order. */
  lemma EveryEntryShownMjs(entries: seq<Entry>, e: Entry)
    requires e in entries
    ensures var title := TypeLabel(TypeMapMjs, e.ctype);
      title in OrderedMaps.Values(TypeMapMjs) && e in Section(TypeMapMjs, entries, title)
  {
    LabelInValues(TypeMapMjs, e.ctype);
    assert OrderedMaps.Values(TypeMapMjs)[6] == ChoresLabel;
    EntryFiled(TypeMapMjs, entries, e, TypeLabel(TypeMapMjs, e.ctype));
  }

  // ---------------------------------------------------------------------------------------
  // Subjects holding several conventional commits

  /**
   * The class `[\p{Emoji_Presentation}\p{Extended_Pictographic}]`. Which characters carry the
   * two properties is Unicode data and is left open; none of them is a word character or
   * white space.
   */
  type EmojiClass = e: char -> bool | forall c :: e(c) ==> !IsWordChar(c) && !IsSpace(c)
    witness (c: char) => false

  /** One match of the conventional pattern, by position: the type, the scope group, and the description that ends it. */
  datatype Match = Match(typeAt: nat, typeEnd: nat, scope: Option<string>, descAt: nat, end: nat)

  /** A match found at or after `from`: a word as type and, after it, a run of emoji as description. */
  predicate WellFormed(m: Match, s: string, from: nat, emoji: EmojiClass) {
    && from <= m.typeAt < m.typeEnd <= m.descAt < m.end <= |s|
    && (forall k :: m.typeAt <= k < m.typeEnd ==> IsWordChar(CharAt(s, k)))
    && (forall k :: m.descAt <= k < m.end ==> emoji(CharAt(s, k)))
  }

  /** `s[k]`, named so that the facts `WellFormed` states about a match are used only where a proof asks for them. */
  function CharAt(s: string, k: nat): char
    requires k < |s|
  {
    s[k]
  }

  /**
   * `(\w+)(?:\(([^)]+)\))?: ([E]+)` at `q`, `E` being the emoji class. Each run is taken whole:
   * giving back part of the type leaves a word character where `(` or `:` must be, and the
   * scope group behaves as in changelog.js, so no other way to match exists.
   */
  function CoreAt(s: string, q: nat, emoji: EmojiClass): (r: Option<Match>)
    requires q <= |s|
    ensures r.Some? ==> WellFormed(r.value, s, q, emoji) && r.value.typeAt == q
  {
    var n := Span(s, q, IsWordChar);
    if n == 0 then None
    else
      match AfterTypeAt(s, q + n)
      case None => None
      case Some((scope, d)) =>
        var m := Span(s, q + n + d, emoji);
        if m == 0 then None else Some(Match(q, q + n, scope, q + n + d, q + n + d + m))
  }

  /** The first `)` at or after `k`, or the end of `s`. */
  function CloseAt(s: string, k: nat): (r: nat)
    requires k <= |s|
    ensures k <= r <= |s| && (r < |s| ==> s[r] == ')')
    ensures forall j :: k <= j < r ==> s[j] != ')'
    decreases |s| - k
  {
    if k == |s| || s[k] == ')' then k else CloseAt(s, k + 1)
  }

  /** The scope group and `: ` after a type ending at `i`, read in place: `AfterType` of `s[i..]` (lemma `AfterTypeAtAgrees`). */
  function AfterTypeAt(s: string, i: nat): (r: Option<(Option<string>, nat)>)
    requires i <= |s|
    ensures r.Some? ==> 2 <= r.value.1 <= |s| - i
  {
    if i < |s| && s[i] == '(' then
      var k := CloseAt(s, i + 1);
      if i + 1 < k && k + 2 < |s| && s[k + 1] == ':' && s[k + 2] == ' ' then Some((Some(s[i + 1..k]), k + 3 - i)) else None
    else if i + 1 < |s| && s[i] == ':' && s[i + 1] == ' ' then Some((None, 2))
    else None
  }

  /** Reading in place agrees with the reader changelog.js uses on the rest of the subject. */
  lemma AfterTypeAtAgrees(s: string, i: nat)
    requires i <= |s|
    ensures AfterTypeAt(s, i) == AfterType(s[i..])
  {
    var t := s[i..];
    if i < |s| && s[i] == '(' {
      var u := t[1..];
      var k := CloseAt(s, i + 1);
      assert forall j :: 0 <= j < |u| ==> u[j] == s[i + 1 + j];
      if ')' in u {
        var j := CharIndex(u, ')');
        assert s[i + 1 + j] == ')';
        assert forall x :: 0 <= x < j ==> u[x] != ')' by {
          forall x | 0 <= x < j ensures u[x] != ')' {
            assert u[..j][x] == u[x];
          }
        }
        assert k == i + 1 + j;
        if j > 0 {
          assert u[..j] == s[i + 1..k];
          var v := u[j + 1..];
          assert |v| == |s| - k - 1;
          if |v| >= 2 {
            assert v[0] == s[k + 1] && v[1] == s[k + 2];
            assert StartsWith(v, ": ") <==> s[k + 1] == ':' && s[k + 2] == ' ';
          }
        }
      } else {
        assert forall j :: i + 1 <= j < |s| ==> s[j] != ')' by {
          forall j | i + 1 <= j < |s| ensures s[j] != ')' {
            assert u[j - i - 1] == s[j];
          }
        }
        assert k == |s|;
      }
    } else if |t| >= 2 {
      assert t[0] == s[i] && t[1] == s[i + 1];
      assert StartsWith(t, ": ") <==> s[i] == ':' && s[i + 1] == ' ';
    }
  }

  /**
   * The whole pattern tried at `p`: the optional lead `(?:[E]+\s*)?` is taken whole when `p`
   * is at an emoji (a shorter lead leaves an emoji or a space where the type must start), and
   * is empty otherwise.
   */
  function MatchAt(s: string, p: nat, emoji: EmojiClass): (r: Option<Match>)
    requires p <= |s|
    ensures r.Some? ==> WellFormed(r.value, s, p, emoji)
  {
    if p < |s| && emoji(s[p]) then CoreAt(s, LeadEnd(s, p, emoji), emoji)
    else CoreAt(s, p, emoji)
  }

  /** Where the lead `[E]+\s*` at `p` ends: after the whole run of emoji and the whole run of white space that follows. */
  function LeadEnd(s: string, p: nat, emoji: EmojiClass): (r: nat)
    requires p <= |s|
    ensures p <= r <= |s|
  {
    var e := Span(s, p, emoji);
    p + e + Span(s, p + e, IsSpace)
  }

  /** `[...subject.matchAll(regex)]`: each search starts where the last match ended, or one character on. */
  function Matches(s: string, from: nat, emoji: EmojiClass): (ms: seq<Match>)
    requires from <= |s|
    ensures forall i :: 0 <= i < |ms| ==> WellFormed(ms[i], s, from, emoji)
    ensures forall i :: 0 <= i < |ms| - 1 ==> ms[i].end <= ms[i + 1].typeAt
    decreases |s| - from
  {
    if from == |s| then []
    else
      match MatchAt(s, from, emoji)
      case Some(m) => [m] + Matches(s, m.end, emoji)
      case None => Matches(s, from + 1, emoji)
  }

  /**
   * A character of the class `[\p{Emoji_Presentation}\p{Extended_Pictographic}]` as a pattern
   * without the `u` flag reads it: each `\p` is the letter `p`, so the class holds the
   * characters of its own text, `p{Emoji_Presentation}p{Extended_Pictographic}`.
   */
  predicate LiteralClassChar(c: char) {
    || c == 'p' || c == '{' || c == '}' || c == '_' || c == 'E' || c == 'P'
    || c == 'm' || c == 'o' || c == 'j' || c == 'i' || c == 'r' || c == 'e' || c == 's'
    || c == 'n' || c == 't' || c == 'a' || c == 'x' || c == 'd' || c == 'c' || c == 'g' || c == 'h'
  }

  /**
   * `type.replace(/([\p{Emoji_Presentation}\p{Extended_Pictographic}])/g, '')`. The pattern has
   * no `u` flag, so it removes the letters and braces of the class's text, not emoji.
   */
  function StripType(t: string): (r: string)
    ensures |r| <= |t| && forall i :: 0 <= i < |r| ==> !LiteralClassChar(r[i])
  {
    Filter(t, (c: char) => !LiteralClassChar(c))
  }

  /** What the strip keeps: exactly the characters of the type outside the class. */
  lemma StripTypeKeeps(t: string, c: char)
    ensures c in StripType(t) <==> c in t && !LiteralClassChar(c)
  {
    FilterMembers(t, (ch: char) => !LiteralClassChar(ch), c);
  }

  /** The same replace with the `u` flag, `/([E])/gu`: it removes emoji. */
  function StripEmoji(t: string, emoji: EmojiClass): (r: string)
    ensures |r| <= |t| && forall i :: 0 <= i < |r| ==> !emoji(r[i])
  {
    Filter(t, (c: char) => !emoji(c))
  }

  /** The entry one match gives: the stripped type, the scope, and the trimmed description. */
  function MatchEntry(s: string, m: Match, c: Commit, author: string, emoji: EmojiClass): Entry
    requires m.typeAt <= m.typeEnd <= m.descAt <= m.end <= |s|
  {
    Entry(StripType(s[m.typeAt..m.typeEnd]), m.scope, Trim(s[m.descAt..m.end]), c.hash, c.date, author)
  }

  /** `parseCommit` of changelog.mjs: one entry per match, in match order, or the whole subject as one chore. */
  function ParseCommitMjs(c: Commit, emoji: EmojiClass): (entries: seq<Entry>)
    ensures |entries| >= 1
    ensures forall i :: 0 <= i < |entries| ==>
      entries[i].hash == c.hash && entries[i].date == c.date && entries[i].author == AuthorInfo(c, CoAuthors(c.body))
    ensures var ms := Matches(c.subject, 0, emoji);
      ms != [] ==> |entries| == |ms| && forall i :: 0 <= i < |ms| ==>
        && entries[i].ctype == StripType(c.subject[ms[i].typeAt..ms[i].typeEnd])
        && entries[i].scope == ms[i].scope
        && entries[i].description == c.subject[ms[i].descAt..ms[i].end]
    ensures Matches(c.subject, 0, emoji) == [] ==>
      |entries| == 1 && entries[0].ctype == "chore" && entries[0].scope.None? && entries[0].description == c.subject
  {
    var author := AuthorInfo(c, CoAuthors(c.body));
    var s := c.subject;
    var ms := Matches(s, 0, emoji);
    if |ms| > 0 then
      forall i | 0 <= i < |ms|
        ensures Trim(s[ms[i].descAt..ms[i].end]) == s[ms[i].descAt..ms[i].end]
      {
        DescriptionKept(s, ms[i], emoji);
      }
      seq(|ms|, i requires 0 <= i < |ms| => MatchEntry(s, ms[i], c, author, emoji))
    else [Entry("chore", None, s, c.hash, c.date, author)]
  }

  /** Trimming a matched description changes nothing: it starts and ends with an emoji. */
  lemma DescriptionKept(s: string, m: Match, emoji: EmojiClass)
    requires WellFormed(m, s, 0, emoji)
    ensures Trim(s[m.descAt..m.end]) == s[m.descAt..m.end]
  {
    var d := s[m.descAt..m.end];
    assert emoji(CharAt(s, m.descAt)) && emoji(CharAt(s, m.end - 1));
    assert d[0] == s[m.descAt] && d[|d| - 1] == s[m.end - 1];
  }

  /** With the `u` flag the strip would leave every matched type, a run of word characters, as it is. */
  lemma IntendedStripKeepsType(s: string, m: Match, emoji: EmojiClass)
    requires WellFormed(m, s, 0, emoji)
    ensures StripEmoji(s[m.typeAt..m.typeEnd], emoji) == s[m.typeAt..m.typeEnd]
  {
    var t := s[m.typeAt..m.typeEnd];
    forall k | 0 <= k < |t| ensures !emoji(t[k]) {
      assert IsWordChar(CharAt(s, m.typeAt + k)) && t[k] == s[m.typeAt + k];
    }
    FilterKeepsAll(t, (ch: char) => !emoji(ch));
  }

  /** `commits.flatMap(parseCommit)`: the entries of each commit in turn. */
  function FlatParse(commits: seq<Commit>, emoji: EmojiClass): (entries: seq<Entry>)
    ensures |entries| >= |commits|
    ensures |commits| > 0 ==> entries[0].hash == commits[0].hash && entries[0].date == commits[0].date
  {
    if |commits| == 0 then [] else ParseCommitMjs(commits[0], emoji) + FlatParse(commits[1..], emoji)
  }

  /** Flattening distributes over appending: the entries of later commits come after those of earlier ones. */
  lemma {:induction false} FlatParseAppend(xs: seq<Commit>, ys: seq<Commit>, emoji: EmojiClass)
    ensures FlatParse(xs + ys, emoji) == FlatParse(xs, emoji) + FlatParse(ys, emoji)
  {
    if |xs| == 0 {
      assert xs + ys == ys;
    } else {
      assert (xs + ys)[0] == xs[0] && (xs + ys)[1..] == xs[1..] + ys;
      FlatParseAppend(xs[1..], ys, emoji);
      AppendAssoc(ParseCommitMjs(xs[0], emoji), FlatParse(xs[1..], emoji), FlatParse(ys, emoji));
    }
  }

  /** The first commit's entries open the list: its date is the version's date when it has one. */
  lemma {:induction false} FlatParseFirstDate(commits: seq<Commit>, emoji: EmojiClass, today: string)
    requires |commits| > 0 && commits[0].date != ""
    ensures VersionDate(FlatParse(commits, emoji), today) == commits[0].date
  {
    assert FlatParse(commits, emoji)[0].date == commits[0].date;
  }

  /** A conventional commit written with an emoji description: type, optional scope without `)`, `: `, emoji. */
  predicate EmojiCommit(ctype: string, scope: Option<string>, description: string, emoji: EmojiClass) {
    && |ctype| >= 1 && (forall i :: 0 <= i < |ctype| ==> IsWordChar(ctype[i]))
    && (scope.Some? ==> |scope.value| >= 1 && ')' !in scope.value)
    && |description| >= 1 && (forall i :: 0 <= i < |description| ==> emoji(description[i]))
  }

  /** The text of such a commit. */
  function CommitText(ctype: string, scope: Option<string>, description: string): string {
    ctype + (ScopeText(scope) + ": " + description)
  }

  /** `w` is written in `s` from position `q` on. */
  predicate Occurs(s: string, q: nat, w: string) {
    q + |w| <= |s| && s[q..q + |w|] == w
  }

  /** A part of an occurring text occurs at its offset `r`. */
  lemma OccursSlice(s: string, q: nat, w: string, i: nat, j: nat, r: nat)
    requires Occurs(s, q, w) && i <= j <= |w| && r == q + i
    ensures Occurs(s, r, w[i..j])
  {
    assert forall k :: q <= k < q + |w| ==> s[k] == w[k - q];
    assert s[r..r + (j - i)] == w[i..j];
  }

  /** What follows an occurring text, from its end `r` on. */
  lemma OccursThenRest(s: string, q: nat, w: string, r: nat)
    requires Occurs(s, q, w) && r == q + |w|
    ensures s[q..] == w + s[r..]
  {
    assert forall k :: 0 <= k < |w| ==> s[q + k] == w[k];
  }

  /** A run of `p` that occurs at `q` and is not followed by `p` (at its end `r`) is the whole span of `p` there. */
  lemma RunOf(s: string, q: nat, w: string, r: nat, p: char -> bool)
    requires Occurs(s, q, w) && forall k :: 0 <= k < |w| ==> p(w[k])
    requires r == q + |w| && (r == |s| || !p(s[r]))
    ensures Span(s, q, p) == |w|
  {
    assert forall k :: q <= k < q + |w| ==> s[k] == w[k - q];
    SpanIs(s, q, |w|, p);
  }

  /** Such a commit is written at `q` in `s`, and no emoji follows it. */
  predicate CommitAt(s: string, q: nat, ctype: string, scope: Option<string>, description: string, emoji: EmojiClass) {
    && EmojiCommit(ctype, scope, description, emoji)
    && Occurs(s, q, CommitText(ctype, scope, description))
    && (q + |CommitText(ctype, scope, description)| == |s| || !emoji(s[q + |CommitText(ctype, scope, description)|]))
  }

  /** Such a commit, written at `q` in front of anything that is not an emoji, matches at its type. */
  lemma CoreAtOf(s: string, q: nat, ctype: string, scope: Option<string>, description: string, emoji: EmojiClass)
    requires CommitAt(s, q, ctype, scope, description, emoji)
    ensures var r := CoreAt(s, q, emoji);
      && r.Some? && r.value.typeAt == q && r.value.typeEnd == q + |ctype| && r.value.scope == scope
      && r.value.descAt == q + |ctype| + (|ScopeText(scope)| + 2) && r.value.end == r.value.descAt + |description|
  {
    CommitRuns(s, q, ctype, scope, description, emoji);
    CoreAtOfRuns(s, q, |ctype|, scope, |ScopeText(scope)| + 2, |description|, emoji);
  }

  /** The same from the runs alone. */
  lemma CoreAtOfRuns(s: string, q: nat, n: nat, scope: Option<string>, d: nat, m: nat, emoji: EmojiClass)
    requires q + n <= |s| && Span(s, q, IsWordChar) == n > 0
    requires AfterTypeAt(s, q + n) == Some((scope, d))
    requires q + n + d <= |s| && Span(s, q + n + d, emoji) == m > 0
    ensures var r := CoreAt(s, q, emoji);
      && r.Some? && r.value.typeAt == q && r.value.typeEnd == q + n && r.value.scope == scope
      && r.value.descAt == q + n + d && r.value.end == r.value.descAt + m
  {
    CoreAtIs(s, q, n, scope, d, m, emoji);
  }

  /** The runs `CoreAt` takes over such a commit: its type, its scope and `: `, and its description. */
  lemma CommitRuns(s: string, q: nat, ctype: string, scope: Option<string>, description: string, emoji: EmojiClass)
    requires CommitAt(s, q, ctype, scope, description, emoji)
    ensures q + |ctype| <= |s| && Span(s, q, IsWordChar) == |ctype| > 0
    ensures AfterTypeAt(s, q + |ctype|) == Some((scope, |ScopeText(scope)| + 2))
    ensures q + |ctype| + (|ScopeText(scope)| + 2) <= |s| && Span(s, q + |ctype| + (|ScopeText(scope)| + 2), emoji) == |description| > 0
  {
    var at := q + |ctype| + (|ScopeText(scope)| + 2);
    TypeRunAt(s, q, ctype, scope, description);
    TailParses(s, q, ctype, scope, description, at);
    DescriptionRunAt(s, q, ctype, scope, description, at, emoji);
  }

  /** The type of such a commit is the run of word characters at `q`. */
  lemma TypeRunAt(s: string, q: nat, ctype: string, scope: Option<string>, description: string)
    requires |ctype| >= 1 && forall i :: 0 <= i < |ctype| ==> IsWordChar(ctype[i])
    requires Occurs(s, q, CommitText(ctype, scope, description))
    ensures q + |ctype| <= |s| && Span(s, q, IsWordChar) == |ctype|
  {
    var w := CommitText(ctype, scope, description);
    var i := q + |ctype|;
    assert w[0..|ctype|] == ctype;
    OccursSlice(s, q, w, 0, |ctype|, q);
    assert s[i] == w[|ctype|];
    RunOf(s, q, ctype, i, IsWordChar);
  }

  /** After the type come the scope and `: `, which `AfterTypeAt` reads back. */
  lemma TailParses(s: string, q: nat, ctype: string, scope: Option<string>, description: string, at: nat)
    requires scope.Some? ==> |scope.value| >= 1 && ')' !in scope.value
    requires Occurs(s, q, CommitText(ctype, scope, description))
    requires at == q + |ctype| + |ScopeText(scope)| + 2
    ensures q + |ctype| <= |s| && AfterTypeAt(s, q + |ctype|) == Some((scope, |ScopeText(scope)| + 2))
  {
    var w := CommitText(ctype, scope, description);
    var tail := ScopeText(scope) + ": ";
    assert w[|ctype|..|ctype| + |tail|] == tail;
    OccursSlice(s, q, w, |ctype|, |ctype| + |tail|, q + |ctype|);
    TailParsesAt(s, q + |ctype|, scope, at);
  }

  /** The scope and `: ` written at `i` are what `AfterTypeAt` reads there. */
  lemma TailParsesAt(s: string, i: nat, scope: Option<string>, at: nat)
    requires scope.Some? ==> |scope.value| >= 1 && ')' !in scope.value
    requires Occurs(s, i, ScopeText(scope) + ": ") && at == i + |ScopeText(scope)| + 2
    ensures AfterTypeAt(s, i) == Some((scope, |ScopeText(scope)| + 2))
  {
    var tail := ScopeText(scope) + ": ";
    OccursThenRest(s, i, tail, at);
    assert s[i..] == tail + s[at..];
    AfterTypeOf(scope, s[at..]);
    assert AfterType(tail + s[at..]) == Some((scope, |ScopeText(scope)| + 2));
    AfterTypeAtAgrees(s, i);
  }

  /** The description is the run of emoji that starts at `at`. */
  lemma DescriptionRunAt(s: string, q: nat, ctype: string, scope: Option<string>, description: string, at: nat, emoji: EmojiClass)
    requires |description| >= 1 && forall i :: 0 <= i < |description| ==> emoji(description[i])
    requires Occurs(s, q, CommitText(ctype, scope, description))
    requires var e := q + |CommitText(ctype, scope, description)|; e == |s| || !emoji(s[e])
    requires at == q + |ctype| + |ScopeText(scope)| + 2
    ensures Span(s, at, emoji) == |description|
  {
    var w := CommitText(ctype, scope, description);
    var e := q + |CommitText(ctype, scope, description)|;
    assert w[at - q..|w|] == description;
    OccursSlice(s, q, w, at - q, |w|, at);
    RunOf(s, at, description, e, emoji);
  }

  /** Such a commit starts with a word character, so no emoji lead is taken at `q`. */
  lemma TypeNotEmoji(s: string, q: nat, ctype: string, scope: Option<string>, description: string, emoji: EmojiClass)
    requires CommitAt(s, q, ctype, scope, description, emoji)
    ensures q < |s| && !emoji(s[q])
  {
    var w := CommitText(ctype, scope, description);
    assert s[q] == s[q..q + |w|][0] == ctype[0];
  }

  /** The match at the type of such a commit, with its parts read back. */
  lemma MatchOf(s: string, q: nat, ctype: string, scope: Option<string>, description: string, emoji: EmojiClass) returns (m: Match)
    requires CommitAt(s, q, ctype, scope, description, emoji)
    ensures CoreAt(s, q, emoji) == Some(m) && q < |s| && !emoji(s[q])
    ensures m.typeAt == q && m.scope == scope && m.end == q + |CommitText(ctype, scope, description)|
    ensures s[m.typeAt..m.typeEnd] == ctype && s[m.descAt..m.end] == description
  {
    CoreAtOf(s, q, ctype, scope, description, emoji);
    m := CoreAt(s, q, emoji).value;
    MatchedParts(s, q, ctype, scope, description, m.descAt);
    TypeNotEmoji(s, q, ctype, scope, description, emoji);
  }

  /** The type and the description of such a commit, read back. */
  lemma MatchedParts(s: string, q: nat, ctype: string, scope: Option<string>, description: string, at: nat)
    requires Occurs(s, q, CommitText(ctype, scope, description))
    requires at == q + |ctype| + |ScopeText(scope)| + 2
    ensures at + |description| <= |s| && s[q..q + |ctype|] == ctype && s[at..at + |description|] == description
  {
    var w := CommitText(ctype, scope, description);
    assert w[0..|ctype|] == ctype;
    OccursSlice(s, q, w, 0, |ctype|, q);
    assert w[at - q..|w|] == description;
    OccursSlice(s, q, w, at - q, |w|, at);
  }

  /** The match at `q`, from the lengths of its runs and what the type leaves. */
  lemma CoreAtIs(s: string, q: nat, n: nat, scope: Option<string>, d: nat, m: nat, emoji: EmojiClass)
    requires q + n <= |s| && Span(s, q, IsWordChar) == n > 0
    requires AfterTypeAt(s, q + n) == Some((scope, d))
    requires q + n + d <= |s| && Span(s, q + n + d, emoji) == m > 0
    ensures CoreAt(s, q, emoji) == Some(Match(q, q + n, scope, q + n + d, q + n + d + m))
  {
    var a := AfterTypeAt(s, q + n);
    assert a.value.0 == scope && a.value.1 == d;
    var r := CoreAt(s, q, emoji);
    assert r.Some?;
    assert r.value.scope == a.value.0;
    assert r.value.descAt == q + n + d;
    assert r.value.typeAt == q && r.value.typeEnd == q + n;
    assert r.value.end == q + n + d + Span(s, q + n + d, emoji);
    assert r.value == Match(q, q + n, scope, q + n + d, q + n + d + m);
  }

  /** Where `matchAll` finds a match, the next search starts at its end. */
  lemma MatchesAtSome(s: string, p: nat, m: Match, emoji: EmojiClass)
    requires p < |s| && MatchAt(s, p, emoji) == Some(m)
    ensures Matches(s, p, emoji) == [m] + Matches(s, m.end, emoji)
  {
  }

  /** Where it finds none, the search goes on one character later. */
  lemma MatchesAtNone(s: string, p: nat, next: nat, emoji: EmojiClass)
    requires p < |s| && MatchAt(s, p, emoji).None? && next == p + 1
    ensures Matches(s, p, emoji) == Matches(s, next, emoji)
  {
  }

  /** Without an emoji at `p` the optional lead is empty. */
  lemma MatchAtPlain(s: string, p: nat, emoji: EmojiClass)
    requires p < |s| && !emoji(s[p])
    ensures MatchAt(s, p, emoji) == CoreAt(s, p, emoji)
  {
  }

  /** Nothing matches at a character that is neither an emoji nor a word character. */
  lemma NoMatchAtSeparator(s: string, p: nat, emoji: EmojiClass)
    requires p < |s| && !emoji(s[p]) && !IsWordChar(s[p])
    ensures MatchAt(s, p, emoji).None?
  {
    MatchAtPlain(s, p, emoji);
  }

  /** A subject whose only match reads back as the given parts gives exactly that entry. */
  lemma OneMatchEntry(c: Commit, m: Match, ctype: string, scope: Option<string>, description: string, emoji: EmojiClass)
    requires WellFormed(m, c.subject, 0, emoji) && Matches(c.subject, 0, emoji) == [m]
    requires c.subject[m.typeAt..m.typeEnd] == ctype && m.scope == scope && c.subject[m.descAt..m.end] == description
    ensures ParseCommitMjs(c, emoji) == [Entry(StripType(ctype), scope, description, c.hash, c.date, AuthorInfo(c, CoAuthors(c.body)))]
  {
    var es := ParseCommitMjs(c, emoji);
    MatchedEntry(c, 0, emoji);
    assert |es| == 1 && Matches(c.subject, 0, emoji)[0] == m;
  }

  /** A subject that is one conventional commit gives back exactly its parts. */
  lemma OneConventionalCommit(c: Commit, ctype: string, scope: Option<string>, description: string, emoji: EmojiClass)
    requires EmojiCommit(ctype, scope, description, emoji)
    requires c.subject == CommitText(ctype, scope, description)
    ensures ParseCommitMjs(c, emoji) == [Entry(StripType(ctype), scope, description, c.hash, c.date, AuthorInfo(c, CoAuthors(c.body)))]
  {
    var s := c.subject;
    assert s[0..|s|] == s;
    var m := MatchOf(s, 0, ctype, scope, description, emoji);
    MatchAtPlain(s, 0, emoji);
    MatchesAtSome(s, 0, m, emoji);
    assert Matches(s, m.end, emoji) == [];
    OneMatchEntry(c, m, ctype, scope, description, emoji);
  }

  /** A lead of emoji and white space before the type is skipped: it is part of neither the type nor the description. */
  lemma LeadSkipped(c: Commit, lead: string, spaces: string, ctype: string, scope: Option<string>, description: string, emoji: EmojiClass)
    requires |lead| >= 1 && forall i :: 0 <= i < |lead| ==> emoji(lead[i])
    requires forall i :: 0 <= i < |spaces| ==> IsSpace(spaces[i])
    requires EmojiCommit(ctype, scope, description, emoji)
    requires c.subject == lead + spaces + CommitText(ctype, scope, description)
    ensures ParseCommitMjs(c, emoji) == [Entry(StripType(ctype), scope, description, c.hash, c.date, AuthorInfo(c, CoAuthors(c.body)))]
  {
    var m := LeadMatch(c.subject, lead, spaces, ctype, scope, description, emoji);
    OneMatchEntry(c, m, ctype, scope, description, emoji);
  }

  /** The one match of a subject with a lead: it starts after the lead and reads back as the commit's parts. */
  lemma LeadMatch(s: string, lead: string, spaces: string, ctype: string, scope: Option<string>, description: string, emoji: EmojiClass)
    returns (m: Match)
    requires |lead| >= 1 && forall i :: 0 <= i < |lead| ==> emoji(lead[i])
    requires forall i :: 0 <= i < |spaces| ==> IsSpace(spaces[i])
    requires EmojiCommit(ctype, scope, description, emoji)
    requires s == lead + spaces + CommitText(ctype, scope, description)
    ensures WellFormed(m, s, 0, emoji) && Matches(s, 0, emoji) == [m]
    ensures m.typeAt == |lead| + |spaces|
    ensures s[m.typeAt..m.typeEnd] == ctype && m.scope == scope && s[m.descAt..m.end] == description
  {
    var w := CommitText(ctype, scope, description);
    LeadRuns(s, lead, spaces, w, emoji);
    CommitAtEnd(s, lead + spaces, ctype, scope, description, emoji);
    assert |lead + spaces| == |lead| + |spaces| && |s| == |lead| + |spaces| + |w|;
    m := MatchAfterRuns(s, |lead|, |spaces|, ctype, scope, description, emoji);
  }

  /** A commit written at the end of a subject stands there. */
  lemma CommitAtEnd(s: string, prefix: string, ctype: string, scope: Option<string>, description: string, emoji: EmojiClass)
    requires EmojiCommit(ctype, scope, description, emoji)
    requires s == prefix + CommitText(ctype, scope, description)
    ensures CommitAt(s, |prefix|, ctype, scope, description, emoji)
  {
    var w := CommitText(ctype, scope, description);
    assert s[|prefix|..|prefix| + |w|] == w;
  }

  /** A commit written right after a run of emoji and a run of white space at the start is the subject's one match. */
  lemma MatchAfterRuns(s: string, e: nat, sp: nat, ctype: string, scope: Option<string>, description: string, emoji: EmojiClass)
    returns (m: Match)
    requires 0 < |s| && emoji(s[0]) && Span(s, 0, emoji) == e
    requires e <= |s| && Span(s, e, IsSpace) == sp && e + sp <= |s|
    requires CommitAt(s, e + sp, ctype, scope, description, emoji) && e + sp + |CommitText(ctype, scope, description)| == |s|
    ensures WellFormed(m, s, 0, emoji) && Matches(s, 0, emoji) == [m]
    ensures m.typeAt == e + sp
    ensures s[m.typeAt..m.typeEnd] == ctype && m.scope == scope && s[m.descAt..m.end] == description
  {
    var q := e + sp;
    m := MatchOf(s, q, ctype, scope, description, emoji);
    assert CoreAt(s, q, emoji) == Some(m);
    MatchAtLead(s, 0, e, sp, q, emoji);
    assert MatchAt(s, 0, emoji) == Some(m);
    MatchesAtSome(s, 0, m, emoji);
    assert Matches(s, m.end, emoji) == [];
  }

  /** With an emoji at the start, the search takes the whole lead of emoji and the white space after it. */
  lemma MatchAtLead(s: string, p: nat, e: nat, sp: nat, q: nat, emoji: EmojiClass)
    requires p < |s| && emoji(s[p]) && Span(s, p, emoji) == e
    requires p + e <= |s| && Span(s, p + e, IsSpace) == sp && q == p + e + sp
    ensures MatchAt(s, p, emoji) == CoreAt(s, q, emoji)
  {
    assert LeadEnd(s, p, emoji) == q;
  }

  /** The lead is the run of emoji at the start, and the white space after it is the run of spaces. */
  lemma LeadRuns(s: string, lead: string, spaces: string, w: string, emoji: EmojiClass)
    requires |lead| >= 1 && forall i :: 0 <= i < |lead| ==> emoji(lead[i])
    requires forall i :: 0 <= i < |spaces| ==> IsSpace(spaces[i])
    requires |w| >= 1 && IsWordChar(w[0]) && s == lead + spaces + w
    ensures Span(s, 0, emoji) == |lead| && Span(s, |lead|, IsSpace) == |spaces|
  {
    var e := |lead|;
    var q := |lead| + |spaces|;
    assert s[0..e] == lead;
    assert s[e] == if |spaces| > 0 then spaces[0] else w[0];
    RunOf(s, 0, lead, e, emoji);
    assert s[e..e + |spaces|] == spaces;
    assert s[q] == w[0];
    RunOf(s, e, spaces, q, IsSpace);
  }

  /** Two conventional commits one space apart give two entries, in order. */
  lemma TwoConventionalCommits(c: Commit, t1: string, s1: Option<string>, d1: string, t2: string, s2: Option<string>, d2: string, emoji: EmojiClass)
    requires EmojiCommit(t1, s1, d1, emoji) && EmojiCommit(t2, s2, d2, emoji)
    requires c.subject == CommitText(t1, s1, d1) + " " + CommitText(t2, s2, d2)
    ensures var es, author := ParseCommitMjs(c, emoji), AuthorInfo(c, CoAuthors(c.body));
      |es| == 2 && es[0] == Entry(StripType(t1), s1, d1, c.hash, c.date, author) && es[1] == Entry(StripType(t2), s2, d2, c.hash, c.date, author)
  {
    var s := c.subject;
    var m1, m2 := TwoMatchesOf(s, t1, s1, d1, t2, s2, d2, emoji);
    TwoMatches(s, m1, m2, emoji);
    TwoMatchEntries(c, m1, m2, t1, s1, d1, t2, s2, d2, emoji);
  }

  /** The two matches at the types of two commits written one space apart. */
  lemma TwoMatchesOf(s: string, t1: string, s1: Option<string>, d1: string, t2: string, s2: Option<string>, d2: string, emoji: EmojiClass)
    returns (m1: Match, m2: Match)
    requires EmojiCommit(t1, s1, d1, emoji) && EmojiCommit(t2, s2, d2, emoji)
    requires s == CommitText(t1, s1, d1) + " " + CommitText(t2, s2, d2)
    ensures 0 < |s| && !emoji(s[0]) && CoreAt(s, 0, emoji) == Some(m1)
    ensures m1.end + 1 == m2.typeAt < |s| && s[m1.end] == ' ' && !emoji(s[m2.typeAt])
    ensures CoreAt(s, m2.typeAt, emoji) == Some(m2) && m2.end == |s|
    ensures s[m1.typeAt..m1.typeEnd] == t1 && m1.scope == s1 && s[m1.descAt..m1.end] == d1
    ensures s[m2.typeAt..m2.typeEnd] == t2 && m2.scope == s2 && s[m2.descAt..m2.end] == d2
  {
    var q2 := |CommitText(t1, s1, d1)| + 1;
    TwoCommitsAt(s, t1, s1, d1, t2, s2, d2, emoji);
    m1 := MatchOf(s, 0, t1, s1, d1, emoji);
    m2 := MatchOf(s, q2, t2, s2, d2, emoji);
  }

  /** Where the two commits of such a subject are written. */
  lemma TwoCommitsAt(s: string, t1: string, s1: Option<string>, d1: string, t2: string, s2: Option<string>, d2: string, emoji: EmojiClass)
    requires EmojiCommit(t1, s1, d1, emoji) && EmojiCommit(t2, s2, d2, emoji)
    requires s == CommitText(t1, s1, d1) + " " + CommitText(t2, s2, d2)
    ensures s[|CommitText(t1, s1, d1)|] == ' '
    ensures CommitAt(s, 0, t1, s1, d1, emoji)
    ensures CommitAt(s, |CommitText(t1, s1, d1)| + 1, t2, s2, d2, emoji)
  {
    var w1 := CommitText(t1, s1, d1);
    var w2 := CommitText(t2, s2, d2);
    var q2 := |w1| + 1;
    assert s[0..|w1|] == w1 && s[|w1|] == ' ' && s[q2..q2 + |w2|] == w2;
  }

  /** Two matches in a subject become two entries, in order, sharing the commit's hash, date and authors. */
  lemma TwoMatchEntries(c: Commit, m1: Match, m2: Match, t1: string, s1: Option<string>, d1: string,
                        t2: string, s2: Option<string>, d2: string, emoji: EmojiClass)
    requires WellFormed(m1, c.subject, 0, emoji) && WellFormed(m2, c.subject, 0, emoji)
    requires Matches(c.subject, 0, emoji) == [m1, m2]
    requires c.subject[m1.typeAt..m1.typeEnd] == t1 && m1.scope == s1 && c.subject[m1.descAt..m1.end] == d1
    requires c.subject[m2.typeAt..m2.typeEnd] == t2 && m2.scope == s2 && c.subject[m2.descAt..m2.end] == d2
    ensures var es, author := ParseCommitMjs(c, emoji), AuthorInfo(c, CoAuthors(c.body));
      |es| == 2 && es[0] == Entry(StripType(t1), s1, d1, c.hash, c.date, author) && es[1] == Entry(StripType(t2), s2, d2, c.hash, c.date, author)
  {
    MatchedEntry(c, 0, emoji);
    MatchedEntry(c, 1, emoji);
  }

  /** The `i`-th entry of a subject with matches is the `i`-th match's type, scope and description, as written. */
  lemma MatchedEntry(c: Commit, i: nat, emoji: EmojiClass)
    requires i < |Matches(c.subject, 0, emoji)|
    ensures var ms, es := Matches(c.subject, 0, emoji), ParseCommitMjs(c, emoji);
      var m := ms[i];
      i < |es| && es[i] == Entry(StripType(c.subject[m.typeAt..m.typeEnd]), m.scope, c.subject[m.descAt..m.end], c.hash, c.date, AuthorInfo(c, CoAuthors(c.body)))
  {
  }

  /** A match ending one space before another match is followed by it. */
  lemma TwoMatches(s: string, m1: Match, m2: Match, emoji: EmojiClass)
    requires 0 < |s| && !emoji(s[0]) && CoreAt(s, 0, emoji) == Some(m1)
    requires m1.end + 1 == m2.typeAt < |s| && s[m1.end] == ' ' && !emoji(s[m2.typeAt])
    requires CoreAt(s, m2.typeAt, emoji) == Some(m2) && m2.end == |s|
    ensures Matches(s, 0, emoji) == [m1, m2]
  {
    MatchAtPlain(s, 0, emoji);
    MatchesAtSome(s, 0, m1, emoji);
    NoMatchAtSeparator(s, m1.end, emoji);
    MatchesAtNone(s, m1.end, m2.typeAt, emoji);
    MatchAtPlain(s, m2.typeAt, emoji);
    MatchesAtSome(s, m2.typeAt, m2, emoji);
    assert Matches(s, m2.end, emoji) == [];
    assert Matches(s, m1.end, emoji) == [m2];
  }

  /** A subject without any emoji has no match. */
  lemma {:induction false} NoEmojiNoMatch(s: string, from: nat, emoji: EmojiClass)
    requires from <= |s| && forall i :: 0 <= i < |s| ==> !emoji(s[i])
    ensures Matches(s, from, emoji) == []
    decreases |s| - from
  {
    if from < |s| {
      assert MatchAt(s, from, emoji).None?;
      NoEmojiNoMatch(s, from + 1, emoji);
    }
  }

  /** A subject without emoji, such as a conventional subject with a plain-text description, becomes one chore. */
  lemma PlainSubjectIsChore(c: Commit, emoji: EmojiClass)
    requires forall i :: 0 <= i < |c.subject| ==> !emoji(c.subject[i])
    ensures ParseCommitMjs(c, emoji) == [Entry("chore", None, c.subject, c.hash, c.date, AuthorInfo(c, CoAuthors(c.body)))]
  {
    NoEmojiNoMatch(c.subject, 0, emoji);
  }

  // ---------------------------------------------------------------------------------------
  // Where changelog.mjs files its entries

  /** A type changelog.mjs's parser gives: the fallback `chore`, or a stripped type, free of the class's characters. */
  predicate ParsedTypeShape(t: string) {
    t == "chore" || forall i :: 0 <= i < |t| ==> !LiteralClassChar(t[i])
  }

  /** Every entry of one commit has a type of that shape. */
  lemma ParsedShape(c: Commit, emoji: EmojiClass, e: Entry)
    requires e in ParseCommitMjs(c, emoji)
    ensures ParsedTypeShape(e.ctype)
  {
    var es := ParseCommitMjs(c, emoji);
    var i :| 0 <= i < |es| && es[i] == e;
  }

  /** So has every entry of `commits.flatMap(parseCommit)`. */
  lemma {:induction false} FlatParseShape(commits: seq<Commit>, emoji: EmojiClass, e: Entry)
    requires e in FlatParse(commits, emoji)
    ensures ParsedTypeShape(e.ctype)
    decreases |commits|
  {
    if e in ParseCommitMjs(commits[0], emoji) {
      ParsedShape(commits[0], emoji, e);
    } else {
      FlatParseShape(commits[1..], emoji, e);
    }
  }

  /** A word with a character of the class's text among its first three. */
  predicate MarkedEarly(w: string) {
    |w| >= 1 && (LiteralClassChar(w[0]) || (|w| >= 2 && LiteralClassChar(w[1])) || (|w| >= 3 && LiteralClassChar(w[2])))
  }

  /** Every key of changelog.mjs's `typeMap` holds a character the strip removes. */
  lemma KeysMarked()
    ensures forall i :: 0 <= i < |TypeMapMjs| ==> MarkedEarly(TypeMapMjs[i].0)
  {
  }

  /** So does every property a plain object inherits. */
  lemma InheritedNamesMarked()
    ensures forall n :: n in ObjectPrototypeNames ==> MarkedEarly(n)
  {
  }

  /** `chore`, the fallback type, has Chores as its label. */
  lemma ChoreIsChores()
    ensures TypeLabel(TypeMapMjs, "chore") == ChoresLabel
    ensures GroupKeyAsWritten(TypeMapMjs, "chore") == LabelKey(ChoresLabel)
  {
    assert TypeMapMjs[6] == ("chore", ChoresLabel);
    assert forall j :: 0 <= j < 6 ==> TypeMapMjs[j].0[0] != 'c';
    OrderedMaps.GetFirst(TypeMapMjs, "chore", 6);
  }

  /**
   * A type of that shape is filed under Chores, by `TypeLabel` and as the code looks it up:
   * the strip leaves no key of the map and no inherited name.
   */
  lemma ShapedUnderChores(t: string)
    requires ParsedTypeShape(t)
    ensures TypeLabel(TypeMapMjs, t) == ChoresLabel
    ensures GroupKeyAsWritten(TypeMapMjs, t) == LabelKey(ChoresLabel)
  {
    if t == "chore" {
      ChoreIsChores();
    } else {
      assert !MarkedEarly(t);
      KeysMarked();
      InheritedNamesMarked();
      var keys := OrderedMaps.Keys(TypeMapMjs);
      forall i | 0 <= i < |keys| ensures keys[i] != t {
        assert MarkedEarly(TypeMapMjs[i].0);
      }
    }
  }

  /** Every entry changelog.mjs parses from a commit is filed under Chores. */
  lemma ParsedUnderChores(c: Commit, emoji: EmojiClass, e: Entry)
    requires e in ParseCommitMjs(c, emoji)
    ensures TypeLabel(TypeMapMjs, e.ctype) == ChoresLabel
    ensures GroupKeyAsWritten(TypeMapMjs, e.ctype) == LabelKey(ChoresLabel)
  {
    ParsedShape(c, emoji, e);
    ShapedUnderChores(e.ctype);
  }

  /** Every entry of `commits.flatMap(parseCommit)` is filed under Chores, by `TypeLabel` and as the code looks it up. */
  lemma FlatParseUnderChores(commits: seq<Commit>, emoji: EmojiClass)
    ensures forall e :: e in FlatParse(commits, emoji) ==>
      TypeLabel(TypeMapMjs, e.ctype) == ChoresLabel && GroupKeyAsWritten(TypeMapMjs, e.ctype) == LabelKey(ChoresLabel)
  {
    forall e | e in FlatParse(commits, emoji)
      ensures TypeLabel(TypeMapMjs, e.ctype) == ChoresLabel && GroupKeyAsWritten(TypeMapMjs, e.ctype) == LabelKey(ChoresLabel)
    {
      FlatParseShape(commits, emoji, e);
      ShapedUnderChores(e.ctype);
    }
  }

  /** Labels under which no entry is filed write nothing. */
  lemma {:induction false} NoSectionsElsewhere(typeMap: TypeMap, labels: seq<string>, title: string, entries: seq<Entry>, repoUrl: string, style: Style)
    requires title !in labels
    requires forall e :: e in entries ==> TypeLabel(typeMap, e.ctype) == title
    ensures SectionsText(typeMap, labels, entries, repoUrl, style) == ""
    decreases |labels|
  {
    if |labels| > 0 {
      var last := labels[|labels| - 1];
      var front := labels[..|labels| - 1];
      EmptySection(typeMap, entries, last, title);
      assert LabelSection(typeMap, entries, last, repoUrl, style) == "";
      assert labels == front + [last] + [];
      SectionsOfOneLabel(typeMap, front, last, [], entries, repoUrl, style);
      NoSectionsElsewhere(typeMap, front, title, entries, repoUrl, style);
      assert SectionsText(typeMap, [], entries, repoUrl, style) == "";
    }
  }

  /** A label other than the one every entry has gets no entries. */
  lemma EmptySection(typeMap: TypeMap, entries: seq<Entry>, other: string, title: string)
    requires other != title
    requires forall e :: e in entries ==> TypeLabel(typeMap, e.ctype) == title
    ensures Section(typeMap, entries, other) == []
  {
    var sec := Section(typeMap, entries, other);
    if sec != [] {
      FilterMembers(entries, InSection(typeMap, other), sec[0]);
    }
  }

  /** When every entry is filed under one label, the sections are that label's section alone, holding all of them. */
  lemma OneLabelSections(typeMap: TypeMap, before: seq<string>, title: string, after: seq<string>, entries: seq<Entry>, repoUrl: string, style: Style)
    requires title !in before && title !in after
    requires forall e :: e in entries ==> TypeLabel(typeMap, e.ctype) == title
    ensures SectionsText(typeMap, before + [title] + after, entries, repoUrl, style) == SectionText(title, entries, repoUrl, style)
  {
    var p := InSection(typeMap, title);
    assert forall i :: 0 <= i < |entries| ==> p(entries[i]);
    FilterKeepsAll(entries, p);
    var own := LabelSection(typeMap, entries, title, repoUrl, style);
    assert own == SectionText(title, entries, repoUrl, style);
    SectionsOfOneLabel(typeMap, before, title, after, entries, repoUrl, style);
    NoSectionsElsewhere(typeMap, before, title, entries, repoUrl, style);
    NoSectionsElsewhere(typeMap, after, title, entries, repoUrl, style);
    assert "" + own + "" == own;
  }

  /** Chores is the seventh label of changelog.mjs's map, and no other label is Chores. */
  lemma MjsLabelsAroundChores() returns (before: seq<string>, after: seq<string>)
    ensures OrderedMaps.Values(TypeMapMjs) == before + [ChoresLabel] + after
    ensures ChoresLabel !in before && ChoresLabel !in after
  {
    assert TypeMapMjs[6].1 == ChoresLabel;
    assert forall j :: 0 <= j < |TypeMapMjs| && j != 6 ==> TypeMapMjs[j].1[0] != ChoresLabel[0];
    before, after := OrderedMaps.ValueOnlyAt(TypeMapMjs, 6);
  }

  /** A version whose entries all have one label is its heading and that label's section. */
  lemma VersionOfOneLabel(flavor: Flavor, before: seq<string>, title: string, after: seq<string>,
                          repoUrl: string, tag: string, previous: Option<string>, commits: seq<Commit>, today: string)
    requires OrderedMaps.Values(flavor.typeMap) == before + [title] + after && title !in before && title !in after
    requires forall e :: e in flavor.parse(commits) ==> TypeLabel(flavor.typeMap, e.ctype) == title
    ensures var entries := flavor.parse(commits);
      VersionText(flavor, repoUrl, tag, previous, commits, today)
      == VersionHeading(tag, CompareUrl(repoUrl, previous, tag), VersionDate(entries, today))
        + SectionText(title, entries, repoUrl, flavor.style)
  {
    OneLabelSections(flavor.typeMap, before, title, after, flavor.parse(commits), repoUrl, flavor.style);
  }

  /** A version of changelog.mjs is its heading and one Chores section listing every entry of its commits. */
  lemma VersionOnlyChores(emoji: EmojiClass, repoUrl: string, tag: string, previous: Option<string>, commits: seq<Commit>, today: string)
    ensures var entries := FlatParse(commits, emoji);
      VersionText(MjsVersions(emoji), repoUrl, tag, previous, commits, today)
      == VersionHeading(tag, CompareUrl(repoUrl, previous, tag), VersionDate(entries, today))
        + SectionText(ChoresLabel, entries, repoUrl, Style(" ", " "))
  {
    var flavor := MjsVersions(emoji);
    var entries := FlatParse(commits, emoji);
    assert flavor.parse(commits) == entries && flavor.typeMap == TypeMapMjs && flavor.style == Style(" ", " ");
    FlatParseUnderChores(commits, emoji);
    var before, after := MjsLabelsAroundChores();
    VersionOfOneLabel(flavor, before, ChoresLabel, after, repoUrl, tag, previous, commits, today);
  }

  /** The Latest section of changelog.mjs is its heading and one Chores section listing every entry of its commits. */
  lemma LatestOnlyChores(emoji: EmojiClass, repoUrl: string, commits: seq<Commit>)
    ensures var entries := FlatParse(commits, emoji);
      LatestSection(MjsVersions(emoji), entries, repoUrl) == "## Latest\n\n" + SectionText(ChoresLabel, entries, repoUrl, LatestStyle)
  {
    ChoresLatest(MjsVersions(emoji), emoji, repoUrl, commits);
  }

  /** The same for any flavor with changelog.mjs's type map. */
  lemma ChoresLatest(flavor: Flavor, emoji: EmojiClass, repoUrl: string, commits: seq<Commit>)
    requires flavor.typeMap == TypeMapMjs
    ensures var entries := FlatParse(commits, emoji);
      LatestSection(flavor, entries, repoUrl) == "## Latest\n\n" + SectionText(ChoresLabel, entries, repoUrl, LatestStyle)
  {
    FlatParseUnderChores(commits, emoji);
    var before, after := MjsLabelsAroundChores();
    LatestOfOneLabel(flavor, before, ChoresLabel, after, FlatParse(commits, emoji), repoUrl);
  }

  /** A Latest section whose entries all have one label is its heading and that label's section. */
  lemma LatestOfOneLabel(flavor: Flavor, before: seq<string>, title: string, after: seq<string>, entries: seq<Entry>, repoUrl: string)
    requires OrderedMaps.Values(flavor.typeMap) == before + [title] + after && title !in before && title !in after
    requires forall e :: e in entries ==> TypeLabel(flavor.typeMap, e.ctype) == title
    ensures LatestSection(flavor, entries, repoUrl) == "## Latest\n\n" + SectionText(title, entries, repoUrl, LatestStyle)
  {
    OneLabelSections(flavor.typeMap, before, title, after, entries, repoUrl, LatestStyle);
  }

  /** A `feat` commit, such as `feat: ✨`, is read as the type `f`, which changelog.mjs files under Chores. */
  lemma FeatStrippedToF(c: Commit, scope: Option<string>, description: string, emoji: EmojiClass)
    requires EmojiCommit("feat", scope, description, emoji)
    requires c.subject == CommitText("feat", scope, description)
    ensures ParseCommitMjs(c, emoji) == [Entry("f", scope, description, c.hash, c.date, AuthorInfo(c, CoAuthors(c.body)))]
    ensures TypeLabel(TypeMapMjs, "f") == ChoresLabel
  {
    OneConventionalCommit(c, "feat", scope, description, emoji);
    FeatStrip();
    ShapedUnderChores("f");
  }

  lemma FeatStrip()
    ensures StripType("feat") == "f"
  {
    var p := (ch: char) => !LiteralClassChar(ch);
    assert "feat"[1..][1..][1..][1..] == [];
    assert Filter("t", p) == [];
    assert Filter("at", p) == [];
    assert Filter("eat", p) == [];
  }

  /** With the `u` flag, the type of a `feat` commit would stay `feat` and be filed under Features. */
  lemma IntendedFeatUnderFeatures(c: Commit, scope: Option<string>, description: string, emoji: EmojiClass)
    requires EmojiCommit("feat", scope, description, emoji)
    requires c.subject == CommitText("feat", scope, description)
    ensures var m := MatchAt(c.subject, 0, emoji);
      && m.Some? && StripEmoji(c.subject[m.value.typeAt..m.value.typeEnd], emoji) == "feat"
      && TypeLabel(TypeMapMjs, "feat") == "✨ Features"
  {
    var s := c.subject;
    assert s[0..|s|] == s;
    var m := MatchOf(s, 0, "feat", scope, description, emoji);
    MatchAtPlain(s, 0, emoji);
    IntendedStripKeepsType(s, m, emoji);
    FeatIsFeatures();
  }

  /** `feat`, the first key, has `✨ Features` as its label. */
  lemma FeatIsFeatures()
    ensures TypeLabel(TypeMapMjs, "feat") == "✨ Features"
  {
    OrderedMaps.GetFirst(TypeMapMjs, "feat", 0);
  }

  // ---------------------------------------------------------------------------------------
  // Lines of a commit message

  /** A `\r` at the end of a line belongs to the `\r\n` that ends it. */
  function DropCR(t: string): (r: string)
    ensures r == t || t == r + "\r"
  {
    if |t| > 0 && t[|t| - 1] == '\r' then t[..|t| - 1] else t
  }

  /** `s.split(/\r?\n/)`: the last line keeps a `\r` it ends with, since no `\n` follows it. */
  function SplitLines(s: string): (lines: seq<string>)
    ensures |lines| >= 1
    ensures forall i :: 0 <= i < |lines| ==> '\n' !in lines[i]
    decreases |s|
  {
    if '\n' in s then
      var i := CharIndex(s, '\n');
      [DropCR(s[..i])] + SplitLines(s[i + 1..])
    else [s]
  }

  /** A line that a `\r\n` could end: it does not itself end with `\r`. */
  predicate NoTrailingCR(line: string) {
    line == [] || line[|line| - 1] != '\r'
  }

  /**
   * Joining lines with `\n` and splitting again gives the lines back, when no line holds `\n`
   * and none but the last ends with `\r`.
   */
  lemma {:induction false} SplitLinesJoin(lines: seq<string>)
    requires |lines| >= 1
    requires forall i :: 0 <= i < |lines| ==> '\n' !in lines[i]
    requires forall i :: 0 <= i < |lines| - 1 ==> NoTrailingCR(lines[i])
    ensures SplitLines(Join(lines, "\n")) == lines
  {
    if |lines| > 1 {
      var rest := Join(lines[1..], "\n");
      assert Join(lines, "\n") == lines[0] + "\n" + rest;
      FirstCharSplits(lines[0], '\n', rest);
      SplitLinesJoin(lines[1..]);
    }
  }

  /** No `\r` in `s`. */
  predicate NoCR(s: string) {
    forall k :: 0 <= k < |s| ==> s[k] != '\r'
  }

  /** Without `\r`, the lines are the pieces between the `\n`s, and none holds `\r`. */
  lemma {:induction false} SplitLinesPlain(s: string)
    requires NoCR(s)
    ensures SplitLines(s) == Split(s, '\n')
    ensures forall i :: 0 <= i < |SplitLines(s)| ==> NoCR(SplitLines(s)[i])
    decreases |s|
  {
    if '\n' in s {
      var i := CharIndex(s, '\n');
      SplitLinesPlain(s[i + 1..]);
      assert DropCR(s[..i]) == s[..i];
      assert SplitLines(s) == [s[..i]] + SplitLines(s[i + 1..]);
    }
  }

  /** Splitting into lines and joining again with `\n` gives back a text without `\r`. */
  lemma JoinSplitLines(s: string)
    requires NoCR(s)
    ensures Join(SplitLines(s), "\n") == s
  {
    SplitLinesPlain(s);
    JoinSplit(s, '\n');
  }

  // ---------------------------------------------------------------------------------------
  // The pending commit message as commits

  /** A line of the pending commit message as a commit of its own, dated today. */
  function ManualCommit(line: string, today: string): Commit {
    Commit("manual", Trim(line), today, "last-commit", "last-commit@example.com", "")
  }

  /** `!!line.trim()`. */
  predicate NonBlank(line: string) {
    Trim(line) != ""
  }

  /**
   * `lastCommitList`: when a message is given and is not empty, each of its non-blank lines,
   * trimmed, as a commit; otherwise none.
   */
  function LastCommitList(lastCommit: Option<string>, today: string): (commits: seq<Commit>)
    ensures lastCommit.None? || lastCommit.value == "" ==> commits == []
    ensures forall i :: 0 <= i < |commits| ==>
      commits[i].hash == "manual" && commits[i].subject != "" && commits[i].date == today && commits[i].body == ""
  {
    if lastCommit.Some? && lastCommit.value != "" then
      var lines := Filter(SplitLines(lastCommit.value), NonBlank);
      Map(lines, (line: string) => ManualCommit(line, today))
    else []
  }

  /** The commits of a message, one per non-blank line, in order. */
  lemma LastCommitsAre(msg: string, today: string) returns (lines: seq<string>)
    requires msg != ""
    ensures lines == Filter(SplitLines(msg), NonBlank)
    ensures var commits := LastCommitList(Some(msg), today);
      |commits| == |lines| && forall k :: 0 <= k < |lines| ==> commits[k] == ManualCommit(lines[k], today)
  {
    lines := Filter(SplitLines(msg), NonBlank);
  }

  /** The commits of a message are exactly its non-blank lines, trimmed. */
  lemma LastCommitMembers(msg: string, today: string, line: string)
    requires msg != ""
    ensures line in SplitLines(msg) && NonBlank(line) ==> ManualCommit(line, today) in LastCommitList(Some(msg), today)
    ensures forall c :: c in LastCommitList(Some(msg), today) ==>
      exists l :: l in SplitLines(msg) && NonBlank(l) && c == ManualCommit(l, today)
  {
    var lines := LastCommitsAre(msg, today);
    var commits := LastCommitList(Some(msg), today);
    FilterMembers(SplitLines(msg), NonBlank, line);
    if line in SplitLines(msg) && NonBlank(line) {
      var k :| 0 <= k < |lines| && lines[k] == line;
      assert commits[k] == ManualCommit(line, today);
    }
    forall c | c in commits
      ensures exists l :: l in SplitLines(msg) && NonBlank(l) && c == ManualCommit(l, today)
    {
      var k :| 0 <= k < |commits| && commits[k] == c;
      FilterMembers(SplitLines(msg), NonBlank, lines[k]);
    }
  }

  // ---------------------------------------------------------------------------------------
  // generateChangelog

  /** `commits.flatMap(parseCommit)`. */
  function MjsParse(emoji: EmojiClass): seq<Commit> -> seq<Entry> {
    (commits: seq<Commit>) => FlatParse(commits, emoji)
  }

  /** The version blocks of changelog.mjs: a space after the bold scope and before the author. */
  function MjsVersions(emoji: EmojiClass): Flavor {
    Flavor(TypeMapMjs, MjsParse(emoji), Style(" ", " "))
  }

  /** Lines of the Latest section: no space after the bold scope, one before the author. */
  const LatestStyle := Style("", " ")

  /** `## Latest`, then a section per label with entries, in the order of the flavor's labels. */
  function LatestSection(flavor: Flavor, entries: seq<Entry>, repoUrl: string): string {
    "## Latest\n\n" + SectionsText(flavor.typeMap, OrderedMaps.Values(flavor.typeMap), entries, repoUrl, LatestStyle)
  }

  /** Writes the Latest section: its heading, then the `typeOrder.forEach` over the labels. */
  method RenderLatest(flavor: Flavor, entries: seq<Entry>, repoUrl: string) returns (text: string)
    ensures text == LatestSection(flavor, entries, repoUrl)
  {
    text := "## Latest\n\n";
    var sections := RenderSections(flavor.typeMap, entries, repoUrl, LatestStyle);
    text := text + sections;
  }

  /** `getCommitsBetween(uniqueTags[0])`: the commits after the newest tag, or all of them when there is no tag. */
  function Unreleased(tags: seq<string>, log: CommitLog): seq<Commit> {
    log(if |tags| > 0 then Some(tags[0]) else None, "HEAD")
  }

  /** `lastCommit` is truthy: a message is given and it is not empty. */
  predicate Given(lastCommit: Option<string>) {
    lastCommit.Some? && lastCommit.value != ""
  }

  /**
   * The Latest part: written when there is a tag or a pending message, and only when there are
   * unreleased commits; the pending message's lines come after those commits.
   */
  function LatestPart(flavor: Flavor, repoUrl: string, tags: seq<string>, lastCommit: Option<string>, log: CommitLog, today: string): (r: string)
    ensures r != "" <==> (|tags| > 0 || Given(lastCommit)) && Unreleased(tags, log) != []
    ensures r != "" ==> StartsWith(r, "## Latest\n\n")
  {
    if (|tags| > 0 || Given(lastCommit)) && Unreleased(tags, log) != [] then
      var r := LatestSection(flavor, flavor.parse(Unreleased(tags, log) + LastCommitList(lastCommit, today)), repoUrl);
      assert r[..|"## Latest\n\n"|] == "## Latest\n\n";
      r
    else ""
  }

  /** In each section of the Latest part, the unreleased commits' entries come first and the pending message's after them. */
  lemma PendingAfterUnreleased(typeMap: TypeMap, unreleased: seq<Commit>, lastCommit: Option<string>, today: string, emoji: EmojiClass, title: string)
    ensures var entries := FlatParse(unreleased + LastCommitList(lastCommit, today), emoji);
      Section(typeMap, entries, title) ==
        Section(typeMap, FlatParse(unreleased, emoji), title) + Section(typeMap, FlatParse(LastCommitList(lastCommit, today), emoji), title)
  {
    FlatParseAppend(unreleased, LastCommitList(lastCommit, today), emoji);
    SectionOrder(typeMap, FlatParse(unreleased, emoji), FlatParse(LastCommitList(lastCommit, today), emoji), title);
  }

  /** The body of `generateChangelog(lastCommit)`: the preamble, the Latest part, then the loop over the tags. */
  method GenerateWithLatest(flavor: Flavor, repoUrl: string, gitTags: seq<string>, lastCommit: Option<string>, log: CommitLog, today: string)
    returns (r: string)
    ensures var tags := UniqueTags(gitTags);
      r == CollapseNewlines(Preamble + LatestPart(flavor, repoUrl, tags, lastCommit, log, today) + Versions(flavor, repoUrl, tags, |tags|, log, today))
    ensures NoTripleNewline(r)
  {
    var tags := UniqueTags(gitTags);
    var lastCommitList := LastCommitList(lastCommit, today);
    var latest := "";
    if |tags| > 0 || Given(lastCommit) {
      var unreleased := Unreleased(tags, log);
      if |unreleased| > 0 {
        latest := RenderLatest(flavor, flavor.parse(unreleased + lastCommitList), repoUrl);
      }
    }
    var changelog := Preamble + latest;
    changelog := AppendVersions(flavor, repoUrl, tags, log, today, changelog);
    r := CollapseNewlines(changelog);
    CollapseHasNoTriple(changelog);
  }

  /** `generateChangelog(lastCommit)` of changelog.mjs, given the repository URL, `getGitTags()`, the log and today's date. */
  method GenerateChangelogMjs(repoUrl: string, gitTags: seq<string>, lastCommit: Option<string>, log: CommitLog, today: string, emoji: EmojiClass)
    returns (r: string)
    ensures var tags := UniqueTags(gitTags);
      r == CollapseNewlines(Preamble + LatestPart(MjsVersions(emoji), repoUrl, tags, lastCommit, log, today)
        + Versions(MjsVersions(emoji), repoUrl, tags, |tags|, log, today))
    ensures NoTripleNewline(r)
  {
    r := GenerateWithLatest(MjsVersions(emoji), repoUrl, gitTags, lastCommit, log, today);
  }

  // ---------------------------------------------------------------------------------------
  // generateLatestChangelogWithLinks

  /**
   * `generateLatestChangelogWithLinks()`, in the corrected reading in which the newest
   * version's commits are parsed like every other version's; changelog.mjs runs it with
   * MjsVersions. Without tags: the Latest section of every commit, returned without the newline
   * clean-up, or `No tags found` when there is no commit either. With tags: the newest version
   * in full, then links to the others.
   */
  method LatestWithLinksOf(flavor: Flavor, repoUrl: string, gitTags: seq<string>, log: CommitLog, today: string) returns (r: string)
    ensures UniqueTags(gitTags) == [] && log(None, "HEAD") == [] ==> r == "No tags found"
    ensures UniqueTags(gitTags) == [] && log(None, "HEAD") != [] ==> r == LatestSection(flavor, flavor.parse(log(None, "HEAD")), repoUrl)
    ensures UniqueTags(gitTags) != [] ==>
      r == CollapseNewlines(LatestBody(flavor, repoUrl, UniqueTags(gitTags), log, today)) && NoTripleNewline(r)
  {
    var tags := UniqueTags(gitTags);
    if |tags| == 0 {
      var unreleased := log(None, "HEAD");
      if |unreleased| > 0 {
        r := RenderLatest(flavor, flavor.parse(unreleased), repoUrl);
        return;
      }
      return "No tags found";
    }
    r := LatestTagged(flavor, repoUrl, tags, log, today);
  }

  /**
   * The tagged branch as written: `commits.map(parseCommit)` makes each element an array of
   * entries, so every element is filed under Chores (an array has no `type`) and writing its
   * line reads `hash` of the array, which is `undefined`: `getCommitHash(undefined)` throws a
   * TypeError as soon as the newest tag has a commit. Without commits the text is the one the
   * corrected reading gives.
   */
  function LatestTaggedAsWritten(flavor: Flavor, repoUrl: string, tags: seq<string>, log: CommitLog, today: string): (r: Result<string, Thrown>)
    requires |tags| > 0
    ensures r.Err? <==> log(PreviousTag(tags, 0), tags[0]) != []
  {
    if log(PreviousTag(tags, 0), tags[0]) != [] then Err(TypeError("cannot read properties of undefined (reading 'substring')"))
    else Ok(CollapseNewlines(LatestBody(flavor, repoUrl, tags, log, today)))
  }

  /** As written, any commit of the newest tag, which the corrected text lists, makes the function throw instead. */
  lemma NewestCommitLost(repoUrl: string, tags: seq<string>, log: CommitLog, today: string, emoji: EmojiClass, e: Entry)
    requires |tags| > 0 && e in FlatParse(log(PreviousTag(tags, 0), tags[0]), emoji)
    ensures LatestTaggedAsWritten(MjsVersions(emoji), repoUrl, tags, log, today).Err?
    ensures Includes(LatestBody(MjsVersions(emoji), repoUrl, tags, log, today), Line(e, repoUrl, Style(" ", " ")))
  {
    assert log(PreviousTag(tags, 0), tags[0]) != [];
    MjsCommitShown(log(PreviousTag(tags, 0), tags[0]), emoji, e);
    NewestCommitsListed(MjsVersions(emoji), repoUrl, tags, log, today, e);
  }

  /** Every entry changelog.mjs parses from some commits has a section among its labels. */
  lemma MjsCommitShown(commits: seq<Commit>, emoji: EmojiClass, e: Entry)
    requires e in FlatParse(commits, emoji)
    ensures var flavor := MjsVersions(emoji);
      e in flavor.parse(commits) && TypeLabel(flavor.typeMap, e.ctype) in OrderedMaps.Values(flavor.typeMap)
  {
    EveryEntryShownMjs(FlatParse(commits, emoji), e);
  }

  /** Every entry of the newest tag's commits whose label has a section has its line in the text. */
  lemma NewestCommitsListed(flavor: Flavor, repoUrl: string, tags: seq<string>, log: CommitLog, today: string, e: Entry)
    requires |tags| > 0 && e in flavor.parse(log(PreviousTag(tags, 0), tags[0]))
    requires TypeLabel(flavor.typeMap, e.ctype) in OrderedMaps.Values(flavor.typeMap)
    ensures Includes(LatestBody(flavor, repoUrl, tags, log, today), Line(e, repoUrl, flavor.style))
  {
    var previous := PreviousTag(tags, 0);
    var commits := log(previous, tags[0]);
    var entries := flavor.parse(commits);
    var sections := SectionsText(flavor.typeMap, OrderedMaps.Values(flavor.typeMap), entries, repoUrl, flavor.style);
    SectionsInclude(flavor.typeMap, entries, e, repoUrl, flavor.style);
    var heading := VersionHeading(tags[0], CompareUrl(repoUrl, previous, tags[0]), VersionDate(entries, today));
    var line := Line(e, repoUrl, flavor.style);
    IncludedAfter(heading, sections, line);
    assert VersionText(flavor, repoUrl, tags[0], previous, commits, today) == heading + sections;
    IncludedBefore(heading + sections, "---\n\n### Previous Versions\n\n", line);
    IncludedBefore(heading + sections + "---\n\n### Previous Versions\n\n", Concat(PreviousLinks(tags, repoUrl)), line);
  }

  /** An entry's line is in the sections written for the entries it is among. */
  lemma SectionsInclude(typeMap: TypeMap, entries: seq<Entry>, e: Entry, repoUrl: string, style: Style)
    requires e in entries && TypeLabel(typeMap, e.ctype) in OrderedMaps.Values(typeMap)
    ensures Includes(SectionsText(typeMap, OrderedMaps.Values(typeMap), entries, repoUrl, style), Line(e, repoUrl, style))
  {
    var title := TypeLabel(typeMap, e.ctype);
    var labels := OrderedMaps.Values(typeMap);
    var k :| 0 <= k < |labels| && labels[k] == title;
    SplitAround(labels, k);
    SectionsOfOneLabel(typeMap, labels[..k], title, labels[k + 1..], entries, repoUrl, style);
    var line := Line(e, repoUrl, style);
    LabelSectionIncludes(typeMap, entries, e, repoUrl, style);
    var front := SectionsText(typeMap, labels[..k], entries, repoUrl, style);
    var block := LabelSection(typeMap, entries, title, repoUrl, style);
    IncludedAfter(front, block, line);
    IncludedBefore(front + block, SectionsText(typeMap, labels[k + 1..], entries, repoUrl, style), line);
  }

  /** A sequence is what comes before its `k`-th element, that element, and what comes after. */
  lemma SplitAround<T>(xs: seq<T>, k: nat)
    requires k < |xs|
    ensures xs == xs[..k] + [xs[k]] + xs[k + 1..]
  {
  }

  /** An element other than the last is among the ones before the last. */
  lemma InInit<T>(xs: seq<T>, x: T)
    requires x in xs && x != xs[|xs| - 1]
    ensures x in xs[..|xs| - 1]
  {
    var i :| 0 <= i < |xs| && xs[i] == x;
    assert xs[..|xs| - 1][i] == x;
  }

  /** An entry's line is in the section of its label. */
  lemma LabelSectionIncludes(typeMap: TypeMap, entries: seq<Entry>, e: Entry, repoUrl: string, style: Style)
    requires e in entries
    ensures Includes(LabelSection(typeMap, entries, TypeLabel(typeMap, e.ctype), repoUrl, style), Line(e, repoUrl, style))
  {
    var title := TypeLabel(typeMap, e.ctype);
    EntryFiled(typeMap, entries, e, title);
    var section := Section(typeMap, entries, title);
    LinesInclude(section, e, repoUrl, style);
    var line := Line(e, repoUrl, style);
    IncludedAfter(Heading(title), Lines(section, repoUrl, style), line);
    IncludedBefore(Heading(title) + Lines(section, repoUrl, style), "\n", line);
  }


  /** Each entry's line is among the lines of the entries. */
  lemma {:induction false} LinesInclude(es: seq<Entry>, e: Entry, repoUrl: string, style: Style)
    requires e in es
    ensures Includes(Lines(es, repoUrl, style), Line(e, repoUrl, style))
  {
    var init := es[..|es| - 1];
    var last := es[|es| - 1];
    if e == last {
      IncludesAt(Lines(init, repoUrl, style) + Line(e, repoUrl, style), Line(e, repoUrl, style), |Lines(init, repoUrl, style)|);
    } else {
      InInit(es, e);
      LinesInclude(init, e, repoUrl, style);
      IncludedBefore(Lines(init, repoUrl, style), Line(last, repoUrl, style), Line(e, repoUrl, style));
    }
  }

  /** What a text includes, the text with more after it includes too. */
  lemma IncludedBefore(s: string, post: string, p: string)
    requires Includes(s, p)
    ensures Includes(s + post, p)
  {
    var i := IndexOf(s, p, 0).value;
    assert (s + post)[i..i + |p|] == s[i..i + |p|];
    IncludesAt(s + post, p, i);
  }

  /** What a text includes, the text with more before it includes too. */
  lemma IncludedAfter(pre: string, s: string, p: string)
    requires Includes(s, p)
    ensures Includes(pre + s, p)
  {
    var i := IndexOf(s, p, 0).value;
    assert (pre + s)[|pre| + i..|pre| + i + |p|] == s[i..i + |p|];
    IncludesAt(pre + s, p, |pre| + i);
  }
}
