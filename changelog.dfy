/**
 * `scripts/actions/changelog.js`: turns git history into `CHANGELOG.md`. Commits are parsed
 * as conventional commits (`type(scope): description`), their authors and co-authors are
 * rendered as GitHub links, and each release tag gets a section whose commits are grouped
 * under the labels of `typeMap`, in `typeMap` order. What `git` prints is a parameter; the
 * current date is one too.
 */
module Changelog {
  import opened Wrappers
  import opened JsStrings
  import opened Lists
  import OrderedMaps

  /** A commit as `getCommitsBetween` yields it. */
  datatype Commit = Commit(hash: string, subject: string, date: string, authorName: string, authorEmail: string, body: string)

  /** A parsed commit: what a changelog line is made of. */
  datatype Entry = Entry(ctype: string, scope: Option<string>, description: string, hash: string, date: string, author: string)

  // ---------------------------------------------------------------------------------------
  // Commit links

  /** `getCommitHash`: the first seven characters, or the whole hash when it is shorter. */
  function ShortHash(hash: string): (r: string)
    ensures StartsWith(hash, r)
    ensures |r| == if |hash| < 7 then |hash| else 7
  {
    Take(hash, 7)
  }

  /** `formatCommitLink`: `[short](repo/commit/full)`. */
  function CommitLink(hash: string, repoUrl: string): (r: string)
    ensures StartsWith(r, "[" + ShortHash(hash) + "](" + repoUrl)
    ensures EndsWith(r, "/commit/" + hash + ")")
  {
    var r := "[" + ShortHash(hash) + "](" + repoUrl + "/commit/" + hash + ")";
    assert r == ("[" + ShortHash(hash) + "](" + repoUrl) + ("/commit/" + hash + ")");
    r
  }

  // ---------------------------------------------------------------------------------------
  // Conventional subjects

  /** The three groups of a conventional subject. */
  datatype Parsed = Parsed(ctype: string, scope: Option<string>, description: string)

  /**
   * What follows the type, `(?:\(([^)]+)\))?: `, at the start of `t`. The scope runs to the
   * first `)` and must not be empty; when the scope group is there but no `: ` follows it,
   * the match fails, since without the group a `(` would have to be a `:`. Gives the scope
   * and where the description starts.
   */
  function AfterType(t: string): (r: Option<(Option<string>, nat)>)
    ensures r.Some? ==> 2 <= r.value.1 <= |t|
  {
    if |t| > 0 && t[0] == '(' then
      var u := t[1..];
      if ')' in u && CharIndex(u, ')') > 0 then
        var j := CharIndex(u, ')');
        if StartsWith(u[j + 1..], ": ") then Some((Some(u[..j]), j + 4)) else None
      else None
    else if StartsWith(t, ": ") then Some((None, 2))
    else None
  }

  /** No line terminator in `s`: what `.` accepts. */
  predicate SingleLine(s: string) {
    forall i :: 0 <= i < |s| ==> !IsLineTerminator(s[i])
  }

  /** `subject.match(/^(\w+)(?:\(([^)]+)\))?: (.+)$/)`. */
  function ParseSubject(s: string): (r: Option<Parsed>)
    ensures r.Some? ==> |r.value.ctype| >= 1 && |r.value.description| >= 1 && SingleLine(r.value.description)
    ensures r.Some? ==> forall i :: 0 <= i < |r.value.ctype| ==> IsWordChar(r.value.ctype[i])
  {
    var n := Span(s, 0, IsWordChar);
    if n == 0 then None
    else
      var t := s[n..];
      match AfterType(t)
      case None => None
      case Some((scope, d)) =>
        if d < |t| && SingleLine(t[d..]) then Some(Parsed(s[..n], scope, t[d..])) else None
  }

  /** How a scope is written in a subject. */
  function ScopeText(scope: Option<string>): string {
    if scope.Some? then "(" + scope.value + ")" else ""
  }

  /** A word, an optional scope without `)`, `: ` and a one-line description parse back into their parts. */
  lemma ParseSubjectRoundTrip(ctype: string, scope: Option<string>, description: string)
    requires |ctype| >= 1 && forall i :: 0 <= i < |ctype| ==> IsWordChar(ctype[i])
    requires scope.Some? ==> |scope.value| >= 1 && ')' !in scope.value
    requires |description| >= 1 && SingleLine(description)
    ensures ParseSubject(ctype + (ScopeText(scope) + ": " + description)) == Some(Parsed(ctype, scope, description))
  {
    var tail := ScopeText(scope) + ": " + description;
    var s := ctype + tail;
    assert tail[0] == '(' || tail[0] == ':';
    SpanIs(s, 0, |ctype|, IsWordChar);
    var n := |ctype|;
    assert s[..n] == ctype && s[n..] == tail;
    AfterTypeOf(scope, description);
  }

  /** The scope and the start of the description in a well-formed tail. */
  lemma AfterTypeOf(scope: Option<string>, description: string)
    requires scope.Some? ==> |scope.value| >= 1 && ')' !in scope.value
    ensures var t := ScopeText(scope) + ": " + description;
      var d := |ScopeText(scope)| + 2;
      AfterType(t) == Some((scope, d)) && t[d..] == description
  {
    if scope.Some? {
      ScopedTail(scope.value, description);
    } else {
      var t := ScopeText(scope) + ": " + description;
      assert t == ": " + description;
      assert t[..2] == ": " && t[2..] == description;
    }
  }

  lemma ScopedTail(sc: string, description: string)
    requires |sc| >= 1 && ')' !in sc
    ensures var t := "(" + sc + ")" + ": " + description;
      AfterType(t) == Some((Some(sc), |sc| + 4)) && t[|sc| + 4..] == description
  {
    var t := "(" + sc + ")" + ": " + description;
    var u := t[1..];
    assert u == sc + ")" + ": " + description;
    assert u[..|sc|] == sc && u[|sc|] == ')';
    CharIndexAt(u, ')', |sc|);
    assert u[|sc| + 1..] == ": " + description;
    assert (": " + description)[..2] == ": ";
    assert t[|sc| + 4..] == description;
  }

  /** Every parse is of that form: a subject that parses is its parts put back together. */
  lemma ParseSubjectSound(s: string)
    requires ParseSubject(s).Some?
    ensures var p := ParseSubject(s).value; s == p.ctype + (ScopeText(p.scope) + ": " + p.description)
  {
    var n := Span(s, 0, IsWordChar);
    var t := s[n..];
    var (scope, d) := AfterType(t).value;
    AfterTypeSound(t);
    assert s == s[..n] + t;
  }

  /** What the tail parse accepts is a scope, `: ` and the rest. */
  lemma AfterTypeSound(t: string)
    requires AfterType(t).Some?
    ensures var (scope, d) := AfterType(t).value; t == ScopeText(scope) + ": " + t[d..]
  {
    var (scope, d) := AfterType(t).value;
    if |t| > 0 && t[0] == '(' {
      var u := t[1..];
      var j := CharIndex(u, ')');
      assert u == u[..j] + ")" + u[j + 1..j + 3] + u[j + 3..];
      assert t == "(" + u;
      assert u[j + 3..] == t[d..];
    } else {
      assert t == t[..2] + t[2..];
    }
  }

  /** A subject that does not start with a word character is not conventional. */
  lemma NotWordNotConventional(s: string)
    requires |s| == 0 || !IsWordChar(s[0])
    ensures ParseSubject(s).None?
  {
  }

  // ---------------------------------------------------------------------------------------
  // Co-authors

  /** A commit author or co-author. */
  datatype Person = Person(name: string, email: string)

  const CoAuthorTag := "Co-authored-by:"

  /**
   * `/Co-authored-by:\s*([^<]+)<([^>]+)>/` matched at the start of `s`: the name runs to
   * the first `<` and the email to the next `>`, both non-empty. Whatever `\s*` and
   * `[^<]+` settle on, the trimmed name is the trimmed text before the `<`. Gives the person
   * and the text after the match.
   */
  function CoAuthorAtStart(s: string): (r: Option<(Person, string)>)
    ensures r.Some? ==> |r.value.1| < |s|
  {
    if !StartsWith(s, CoAuthorTag) then None
    else
      var a := s[|CoAuthorTag|..];
      if '<' !in a || CharIndex(a, '<') == 0 then None
      else
        var l := CharIndex(a, '<');
        var b := a[l + 1..];
        if '>' !in b || CharIndex(b, '>') == 0 then None
        else
          var g := CharIndex(b, '>');
          Some((Person(Trim(a[..l]), Trim(b[..g])), b[g + 1..]))
  }

  /** `coAuthorRegex.exec(body)`: the leftmost match, and the text after it. */
  function NextCoAuthor(s: string): (r: Option<(Person, string)>)
    ensures r.Some? ==> |r.value.1| < |s|
  {
    if |s| == 0 then None
    else
      match CoAuthorAtStart(s)
      case Some(m) => Some(m)
      case None => NextCoAuthor(s[1..])
  }

  /** Every co-author of `s`, in order of appearance. */
  function CoAuthorsIn(s: string): seq<Person>
    decreases |s|
  {
    match NextCoAuthor(s)
    case None => []
    case Some((person, rest)) => [person] + CoAuthorsIn(rest)
  }

  /** The co-authors `parseCommit` collects; an empty body has none. */
  function CoAuthors(body: string): seq<Person> {
    if body == "" then [] else CoAuthorsIn(body)
  }

  /** The `while ((coAuthorMatch = coAuthorRegex.exec(commit.body)) !== null)` loop. */
  method CollectCoAuthors(body: string) returns (coAuthors: seq<Person>)
    ensures coAuthors == CoAuthors(body)
  {
    coAuthors := [];
    if body != "" {
      var rest := body;
      var m := NextCoAuthor(rest);
      while m.Some?
        invariant m == NextCoAuthor(rest)
        invariant coAuthors + CoAuthorsIn(rest) == CoAuthorsIn(body)
        decreases |rest|
      {
        var (person, after) := m.value;
        assert CoAuthorsIn(rest) == [person] + CoAuthorsIn(after);
        assert coAuthors + ([person] + CoAuthorsIn(after)) == (coAuthors + [person]) + CoAuthorsIn(after);
        coAuthors := coAuthors + [person];
        rest := after;
        m := NextCoAuthor(rest);
      }
      assert coAuthors + [] == coAuthors;
    }
  }

  /** The trailer `Co-authored-by:name<email>` as a commit body carries it (spacing is in `name`). */
  function Trailer(name: string, email: string): string {
    CoAuthorTag + name + "<" + email + ">"
  }

  /** A trailer is found after text that cannot start one. */
  lemma {:induction false} CoAuthorTrailer(pre: string, name: string, email: string, rest: string)
    requires 'C' !in pre
    requires |name| >= 1 && '<' !in name && |email| >= 1 && '>' !in email
    ensures NextCoAuthor(pre + Trailer(name, email) + rest) == Some((Person(Trim(name), Trim(email)), rest))
    decreases |pre|
  {
    var s := pre + Trailer(name, email) + rest;
    if |pre| == 0 {
      assert s == Trailer(name, email) + rest;
      TrailerAtStart(name, email, rest);
    } else {
      assert s[0] == pre[0] && CoAuthorTag[0] == 'C';
      assert !StartsWith(s, CoAuthorTag);
      assert s[1..] == pre[1..] + Trailer(name, email) + rest;
      CoAuthorTrailer(pre[1..], name, email, rest);
    }
  }

  lemma TrailerAtStart(name: string, email: string, rest: string)
    requires |name| >= 1 && '<' !in name && |email| >= 1 && '>' !in email
    ensures CoAuthorAtStart(Trailer(name, email) + rest) == Some((Person(Trim(name), Trim(email)), rest))
  {
    var s := Trailer(name, email) + rest;
    var b := email + ">" + rest;
    var a := name + "<" + b;
    assert s == CoAuthorTag + a;
    assert s[..|CoAuthorTag|] == CoAuthorTag && s[|CoAuthorTag|..] == a;
    FirstCharSplits(name, '<', b);
    FirstCharSplits(email, '>', rest);
  }

  /** Each trailer contributes its person, and collection goes on after it. */
  lemma CoAuthorsAfterTrailer(pre: string, name: string, email: string, rest: string)
    requires 'C' !in pre
    requires |name| >= 1 && '<' !in name && |email| >= 1 && '>' !in email
    ensures CoAuthorsIn(pre + Trailer(name, email) + rest) == [Person(Trim(name), Trim(email))] + CoAuthorsIn(rest)
  {
    CoAuthorTrailer(pre, name, email, rest);
  }

  /** Two trailers in a row are collected in the order they appear. */
  lemma TwoTrailers(pre: string, n1: string, e1: string, mid: string, n2: string, e2: string, rest: string)
    requires 'C' !in pre && 'C' !in mid
    requires |n1| >= 1 && '<' !in n1 && |e1| >= 1 && '>' !in e1
    requires |n2| >= 1 && '<' !in n2 && |e2| >= 1 && '>' !in e2
    ensures CoAuthorsIn(pre + Trailer(n1, e1) + (mid + Trailer(n2, e2) + rest))
      == [Person(Trim(n1), Trim(e1)), Person(Trim(n2), Trim(e2))] + CoAuthorsIn(rest)
  {
    CoAuthorsAfterTrailer(pre, n1, e1, mid + Trailer(n2, e2) + rest);
    CoAuthorsAfterTrailer(mid, n2, e2, rest);
  }

  // ---------------------------------------------------------------------------------------
  // Authors

  const GitHubUrl := "https://github.com/"
  const BotMark := "[bot]"
  const NoReplyDomain := "@users.noreply.github.com"

  /** A profile link: `[@text](https://github.com/user)`. */
  function ProfileLink(text: string, user: string): string {
    "[@" + text + "](" + GitHubUrl + user + ")"
  }

  /** Bots: `[bot]` in the email or the name, or `dependabot` in the name. */
  predicate IsBot(name: string, email: string) {
    Includes(email, BotMark) || Includes(name, BotMark) || Includes(name, "dependabot")
  }

  /**
   * `formatAuthor`: a bot is shown with its `[bot]` marks removed and one put back at the
   * end; a GitHub no-reply address gives its local part as the user; anyone else is shown by
   * name.
   */
  function FormatAuthor(name: string, email: string): (r: string)
    ensures IsBot(name, email) ==> r == ProfileLink(ReplaceAll(name, BotMark, "") + BotMark, ReplaceAll(name, BotMark, ""))
    ensures !IsBot(name, email) && !Includes(email, NoReplyDomain) ==> r == ProfileLink(name, name)
  {
    if IsBot(name, email) then
      var clean := ReplaceAll(name, BotMark, "");
      ProfileLink(clean + BotMark, clean)
    else
      var user := if Includes(email, NoReplyDomain) then Split(email, '@')[0] else name;
      ProfileLink(user, user)
  }

  /** A no-reply address links to its local part, whatever the display name. */
  lemma NoReplyUsesLocalPart(name: string, local: string)
    requires '@' !in local && !IsBot(name, local + NoReplyDomain)
    ensures FormatAuthor(name, local + NoReplyDomain) == ProfileLink(local, local)
  {
    var email := local + NoReplyDomain;
    assert OccursAt(email, NoReplyDomain, |local|);
    IncludesAt(email, NoReplyDomain, |local|);
    assert email[|local|] == '@' && email[..|local|] == local;
    assert CharIndex(email, '@') == |local|;
  }

  /** A bot named `name[bot]` (no `[` otherwise) links to `name` and shows `name[bot]`. */
  lemma BotLink(name: string, email: string)
    requires '[' !in name
    ensures FormatAuthor(name + BotMark, email) == ProfileLink(name + BotMark, name)
  {
    assert OccursAt(name + BotMark, BotMark, |name|);
    IncludesAt(name + BotMark, BotMark, |name|);
    StripTrailingMark(name, BotMark);
  }

  /** Removing every `p` from `s + p` gives `s` when `s` has no character `p` starts with. */
  lemma {:induction false} StripTrailingMark(s: string, p: string)
    requires |p| > 0 && p[0] !in s
    ensures ReplaceAll(s + p, p, "") == s
    decreases |s|
  {
    if |s| == 0 {
      assert StartsWith(p, p) && p[|p|..] == "";
    } else {
      var t := s + p;
      assert t[0] == s[0];
      assert !StartsWith(t, p);
      assert t[1..] == s[1..] + p;
      StripTrailingMark(s[1..], p);
      assert [s[0]] + s[1..] == s;
    }
  }

  /**
   * `authorInfo`: `by <author>`, then `, ` and the co-authors joined by `, ` when there are
   * any; empty unless the commit has both an author name and an email.
   */
  function AuthorInfo(c: Commit, coAuthors: seq<Person>): (r: string)
    ensures r == "" <==> c.authorName == "" || c.authorEmail == ""
    ensures r != "" ==> StartsWith(r, "by " + FormatAuthor(c.authorName, c.authorEmail))
  {
    if c.authorName != "" && c.authorEmail != "" then
      var head := "by " + FormatAuthor(c.authorName, c.authorEmail);
      var links := seq(|coAuthors|, i requires 0 <= i < |coAuthors| => FormatAuthor(coAuthors[i].name, coAuthors[i].email));
      var r := head + (if |coAuthors| > 0 then ", " + Join(links, ", ") else "");
      assert r[..|head|] == head;
      r
    else ""
  }

  /** `parseCommit`: the subject's parts when it is conventional, otherwise a chore described by the whole subject. */
  function ParseCommit(c: Commit): (e: Entry)
    ensures e.hash == c.hash && e.date == c.date && e.author == AuthorInfo(c, CoAuthors(c.body))
    ensures ParseSubject(c.subject).None? ==> e.ctype == "chore" && e.scope.None? && e.description == c.subject
    ensures ParseSubject(c.subject).Some? ==> e.ctype == ParseSubject(c.subject).value.ctype && e.scope == ParseSubject(c.subject).value.scope && e.description == ParseSubject(c.subject).value.description
  {
    var author := AuthorInfo(c, CoAuthors(c.body));
    match ParseSubject(c.subject)
    case Some(p) => Entry(p.ctype, p.scope, p.description, c.hash, c.date, author)
    case None => Entry("chore", None, c.subject, c.hash, c.date, author)
  }

  // ---------------------------------------------------------------------------------------
  // Tags and output clean-up

  /** A tag the changelog uses: not empty, not `lastest`, and without `undefined` in it. */
  predicate UsableTag(tag: string) {
    tag != "" && tag != "lastest" && !Includes(tag, "undefined")
  }

  /** `[...new Set(tags)].filter(...)`. */
  function UniqueTags(tags: seq<string>): (r: seq<string>)
    ensures forall i :: 0 <= i < |r| ==> UsableTag(r[i])
  {
    Filter(Dedup(tags), UsableTag)
  }

  /** A tag is kept exactly when it is among the tags and usable, and none is kept twice. */
  lemma UniqueTagsMembers(tags: seq<string>, t: string)
    ensures t in UniqueTags(tags) <==> t in tags && UsableTag(t)
  {
    FilterMembers(Dedup(tags), UsableTag, t);
  }

  /** Tags are listed in the order they first appear; a repeated or unusable tag adds nothing. */
  lemma UniqueTagsSnoc(tags: seq<string>, t: string)
    ensures UniqueTags(tags + [t]) == if t in tags || !UsableTag(t) then UniqueTags(tags) else UniqueTags(tags) + [t]
  {
    DedupSnoc(tags, t);
    if t !in tags {
      FilterAppend(Dedup(tags), [t], UsableTag);
    }
  }

  /** No tag is listed twice. */
  lemma {:induction false} UniqueTagsDistinct(tags: seq<string>)
    ensures forall i, j :: 0 <= i < j < |UniqueTags(tags)| ==> UniqueTags(tags)[i] != UniqueTags(tags)[j]
  {
    FilterDistinct(Dedup(tags), UsableTag);
  }

  /** The number of newlines `s` starts with. */
  function NewlineRun(s: string): (n: nat)
    ensures n <= |s| && (forall i :: 0 <= i < n ==> s[i] == '\n') && (n < |s| ==> s[n] != '\n')
  {
    if |s| > 0 && s[0] == '\n' then 1 + NewlineRun(s[1..]) else 0
  }

  /** `s.replace(/\n{3,}/g, '\n\n')`: every run of three or more newlines becomes two. */
  function CollapseNewlines(s: string): (r: string)
    ensures |r| <= |s|
    ensures |s| > 0 && s[0] != '\n' ==> |r| > 0 && r[0] == s[0]
    decreases |s|
  {
    if |s| == 0 then ""
    else
      var n := NewlineRun(s);
      if n >= 3 then "\n\n" + CollapseNewlines(s[n..])
      else if n > 0 then s[..n] + CollapseNewlines(s[n..])
      else [s[0]] + CollapseNewlines(s[1..])
  }

  /** No three newlines in a row. */
  predicate NoTripleNewline(s: string) {
    forall i :: 0 <= i < |s| - 2 ==> !(s[i] == '\n' && s[i + 1] == '\n' && s[i + 2] == '\n')
  }

  /** The collapsed text never has three newlines in a row. */
  lemma {:induction false} CollapseHasNoTriple(s: string)
    ensures NoTripleNewline(CollapseNewlines(s))
    decreases |s|
  {
    if |s| > 0 {
      var n := NewlineRun(s);
      if n > 0 {
        var rest := s[n..];
        CollapseHasNoTriple(rest);
        var head := if n >= 3 then "\n\n" else s[..n];
        JoinNoTriple(head, CollapseNewlines(rest));
      } else {
        CollapseHasNoTriple(s[1..]);
        JoinNoTriple([s[0]], CollapseNewlines(s[1..]));
      }
    }
  }

  /** At most two newlines followed by text that does not start with one stays free of triples. */
  lemma JoinNoTriple(head: string, tail: string)
    requires (|head| == 1 && head[0] != '\n') ||
      (|head| <= 2 && (forall i :: 0 <= i < |head| ==> head[i] == '\n') && (|tail| == 0 || tail[0] != '\n'))
    requires NoTripleNewline(tail)
    ensures NoTripleNewline(head + tail)
  {
    var s := head + tail;
    forall i | 0 <= i < |s| - 2 ensures !(s[i] == '\n' && s[i + 1] == '\n' && s[i + 2] == '\n') {
      if i >= |head| {
        assert s[i] == tail[i - |head|] && s[i + 1] == tail[i + 1 - |head|] && s[i + 2] == tail[i + 2 - |head|];
      }
    }
  }

  /** Text without three newlines in a row is left as it is, so collapsing twice is collapsing once. */
  lemma {:induction false} CollapseKeeps(s: string)
    requires NoTripleNewline(s)
    ensures CollapseNewlines(s) == s
    decreases |s|
  {
    if |s| > 0 {
      var n := NewlineRun(s);
      RunOfThree(s);
      assert n < 3;
      if n > 0 {
        var rest := s[n..];
        assert NoTripleNewline(rest) by {
          forall i | 0 <= i < |rest| - 2 ensures !(rest[i] == '\n' && rest[i + 1] == '\n' && rest[i + 2] == '\n') {
            assert rest[i] == s[n + i] && rest[i + 1] == s[n + i + 1] && rest[i + 2] == s[n + i + 2];
          }
        }
        CollapseKeeps(rest);
        assert s[..n] + rest == s;
      } else {
        var rest := s[1..];
        assert NoTripleNewline(rest) by {
          forall i | 0 <= i < |rest| - 2 ensures !(rest[i] == '\n' && rest[i + 1] == '\n' && rest[i + 2] == '\n') {
            assert rest[i] == s[1 + i] && rest[i + 1] == s[i + 2] && rest[i + 2] == s[i + 3];
          }
        }
        CollapseKeeps(rest);
        assert [s[0]] + rest == s;
      }
    }
  }

  /** A run of three or more newlines starts with three newlines. */
  lemma RunOfThree(s: string)
    ensures NewlineRun(s) >= 3 ==> |s| >= 3 && s[0] == '\n' && s[1] == '\n' && s[2] == '\n'
  {
  }

  /** Collapsing is idempotent. */
  lemma CollapseIdempotent(s: string)
    ensures CollapseNewlines(CollapseNewlines(s)) == CollapseNewlines(s)
  {
    CollapseHasNoTriple(s);
    CollapseKeeps(CollapseNewlines(s));
  }

  // ---------------------------------------------------------------------------------------
  // Grouping by type label

  /** A `typeMap`: commit types and their section labels, in declaration order. */
  type TypeMap = seq<(string, string)>

  /** The label every type without one of its own falls back to. */
  const ChoresLabel := "🔧 Chores"

  /** The `typeMap` of changelog.js. */
  const TypeMapJs: TypeMap := [
    ("feat", "✨ Features"), ("fix", "🐛 Bug Fixes"), ("docs", "📚 Documentation"),
    ("style", "💄 Styles"), ("refactor", "♻️ Code Refactoring"), ("test", "✅ Tests"),
    ("chore", ChoresLabel), ("ci", "⚙️ Continuous Integration"),
    ("perf", "⚡ Performance Improvements"), ("build", "🏗️ Build System"), ("revert", "⏪ Reverts"),
    ("merge", "🔀 Merge Commits"), ("release", "🚀 Releases"), ("wip", "🚧 Work In Progress")]

  /**
   * `typeMap[commit.type] || '🔧 Chores'`, reading only the map's own keys: the label of a
   * known type, and Chores for any other.
   */
  function TypeLabel(typeMap: TypeMap, t: string): (title: string)
    ensures !OrderedMaps.Has(typeMap, t) ==> title == ChoresLabel
    ensures OrderedMaps.Has(typeMap, t) ==> (t, title) in typeMap || title == ChoresLabel
  {
    match OrderedMaps.Get(typeMap, t)
    case Some(l) => if l != "" then l else ChoresLabel
    case None => ChoresLabel
  }

  /** An entry belongs in the section labelled `label`. */
  function InSection(typeMap: TypeMap, title: string): Entry -> bool {
    (e: Entry) => TypeLabel(typeMap, e.ctype) == title
  }

  /** The entries of the section labelled `label`, in the order they came. */
  function Section(typeMap: TypeMap, entries: seq<Entry>, title: string): (r: seq<Entry>)
    ensures |r| <= |entries|
    ensures forall i :: 0 <= i < |r| ==> TypeLabel(typeMap, r[i].ctype) == title
  {
    Filter(entries, InSection(typeMap, title))
  }

  /** `groupedCommits[label]`: absent until a first entry is pushed. */
  function SectionEntry(typeMap: TypeMap, entries: seq<Entry>, title: string): Option<seq<Entry>> {
    if Section(typeMap, entries, title) == [] then None else Some(Section(typeMap, entries, title))
  }

  /** Each entry is filed under its type's label, and only there. */
  lemma EntryFiled(typeMap: TypeMap, entries: seq<Entry>, e: Entry, title: string)
    requires e in entries
    ensures e in Section(typeMap, entries, title) <==> title == TypeLabel(typeMap, e.ctype)
  {
    FilterMembers(entries, InSection(typeMap, title), e);
  }

  /**
   * A type the map does not know is filed under Chores. As written, that holds exactly when
   * the type is not the name of an inherited property.
   */
  lemma UnknownTypeUnderChores(typeMap: TypeMap, entries: seq<Entry>, e: Entry)
    requires e in entries && !OrderedMaps.Has(typeMap, e.ctype)
    ensures e in Section(typeMap, entries, ChoresLabel)
    ensures e in SectionAsWritten(typeMap, entries, ChoresLabel) <==> e.ctype !in ObjectPrototypeNames
  {
    EntryFiled(typeMap, entries, e, ChoresLabel);
    EntryFiledAsWritten(typeMap, entries, e, ChoresLabel);
  }

  /** Sections keep the order of the commits: later commits come after earlier ones. */
  lemma SectionOrder(typeMap: TypeMap, earlier: seq<Entry>, later: seq<Entry>, title: string)
    ensures Section(typeMap, earlier + later, title) == Section(typeMap, earlier, title) + Section(typeMap, later, title)
  {
    FilterAppend(earlier, later, InSection(typeMap, title));
  }

  /** Every label the fallback produces has a section of its own in changelog.js's order. */
  lemma ChoresIsALabel()
    ensures ChoresLabel in OrderedMaps.Values(TypeMapJs)
  {
    assert OrderedMaps.Values(TypeMapJs)[6] == ChoresLabel;
  }

  /** One more entry is pushed onto its own section and leaves every other section as it was. */
  lemma SectionEntrySnoc(typeMap: TypeMap, entries: seq<Entry>, e: Entry, title: string)
    ensures SectionEntry(typeMap, entries + [e], title) ==
      if TypeLabel(typeMap, e.ctype) == title then Some(Section(typeMap, entries, title) + [e])
      else SectionEntry(typeMap, entries, title)
  {
    SectionOrder(typeMap, entries, [e], title);
    var p := InSection(typeMap, title);
    assert Filter([e], p) == (if p(e) then [e] else []) by {
      assert [e][1..] == [];
    }
    assert Section(typeMap, [e], title) == Filter([e], p);
    if TypeLabel(typeMap, e.ctype) == title {
      assert p(e);
      assert Section(typeMap, entries + [e], title) == Section(typeMap, entries, title) + [e];
    } else {
      assert !p(e);
      assert Section(typeMap, entries + [e], title) == Section(typeMap, entries, title);
    }
  }

  /** `groupedCommits` holds exactly the non-empty sections of `entries`. */
  ghost predicate Grouped(groups: seq<(string, seq<Entry>)>, typeMap: TypeMap, entries: seq<Entry>) {
    forall title :: OrderedMaps.Get(groups, title) == SectionEntry(typeMap, entries, title)
  }

  /** Pushing the next entry onto its label's group keeps the groups in step with the entries. */
  lemma GroupPush(groups: seq<(string, seq<Entry>)>, typeMap: TypeMap, entries: seq<Entry>, i: nat, g: seq<Entry>)
    requires i < |entries| && Grouped(groups, typeMap, entries[..i])
    requires g == match OrderedMaps.Get(groups, TypeLabel(typeMap, entries[i].ctype)) case Some(v) => v case None => []
    ensures Grouped(OrderedMaps.Set(groups, TypeLabel(typeMap, entries[i].ctype), g + [entries[i]]), typeMap, entries[..i + 1])
  {
    var e := entries[i];
    var title := TypeLabel(typeMap, e.ctype);
    assert entries[..i + 1] == entries[..i] + [e];
    forall l ensures OrderedMaps.Get(OrderedMaps.Set(groups, title, g + [e]), l) == SectionEntry(typeMap, entries[..i] + [e], l) {
      OrderedMaps.SetGet(groups, title, g + [e], l);
      SectionEntrySnoc(typeMap, entries[..i], e, l);
    }
  }

  // As written, `typeMap[commit.type]` reads a plain object, so a type named after a property
  // every object inherits finds that property instead of missing.

  /** A key of `groupedCommits`: a label, or the string form of an inherited property's value. */
  datatype GroupKey = LabelKey(title: string) | InheritedKey(name: string)

  /** The properties an object literal inherits from `Object.prototype`; every one is truthy. */
  const ObjectPrototypeNames: set<string> := {
    "constructor", "hasOwnProperty", "isPrototypeOf", "propertyIsEnumerable", "toLocaleString", "toString",
    "valueOf", "__proto__", "__defineGetter__", "__defineSetter__", "__lookupGetter__", "__lookupSetter__"}

  /** `typeMap[commit.type] || '🔧 Chores'` as changelog.js evaluates it. */
  function GroupKeyAsWritten(typeMap: TypeMap, t: string): (r: GroupKey)
    ensures r.InheritedKey? <==> !OrderedMaps.Has(typeMap, t) && t in ObjectPrototypeNames
    ensures r.LabelKey? ==> r.title == TypeLabel(typeMap, t)
  {
    if OrderedMaps.Has(typeMap, t) then LabelKey(TypeLabel(typeMap, t))
    else if t in ObjectPrototypeNames then InheritedKey(t)
    else LabelKey(ChoresLabel)
  }

  /** The section labelled `title` as changelog.js fills it. */
  function SectionAsWritten(typeMap: TypeMap, entries: seq<Entry>, title: string): (r: seq<Entry>)
    ensures |r| <= |entries|
    ensures forall i :: 0 <= i < |r| ==> TypeLabel(typeMap, r[i].ctype) == title
    ensures forall i :: 0 <= i < |r| ==> OrderedMaps.Has(typeMap, r[i].ctype) || r[i].ctype !in ObjectPrototypeNames
  {
    Filter(entries, (e: Entry) => GroupKeyAsWritten(typeMap, e.ctype) == LabelKey(title))
  }

  /** Apart from the inherited names, the code as written files every entry where `TypeLabel` does. */
  lemma {:induction false} AsWrittenAgreesElsewhere(typeMap: TypeMap, entries: seq<Entry>, title: string)
    requires forall e :: e in entries ==> OrderedMaps.Has(typeMap, e.ctype) || e.ctype !in ObjectPrototypeNames
    ensures SectionAsWritten(typeMap, entries, title) == Section(typeMap, entries, title)
  {
    if |entries| > 0 {
      AsWrittenAgreesElsewhere(typeMap, entries[1..], title);
    }
  }

  /** As written, each entry is filed under the key its type looks up, and only there. */
  lemma EntryFiledAsWritten(typeMap: TypeMap, entries: seq<Entry>, e: Entry, title: string)
    requires e in entries
    ensures e in SectionAsWritten(typeMap, entries, title) <==> GroupKeyAsWritten(typeMap, e.ctype) == LabelKey(title)
  {
    FilterMembers(entries, (e: Entry) => GroupKeyAsWritten(typeMap, e.ctype) == LabelKey(title), e);
  }

  /** As written, an entry whose type is an inherited name reaches no section at all. */
  lemma PrototypeTypeDropped(typeMap: TypeMap, entries: seq<Entry>, e: Entry, title: string)
    requires e in entries && e.ctype in ObjectPrototypeNames && !OrderedMaps.Has(typeMap, e.ctype)
    ensures e !in SectionAsWritten(typeMap, entries, title)
  {
    FilterMembers(entries, (e: Entry) => GroupKeyAsWritten(typeMap, e.ctype) == LabelKey(title), e);
  }

  /** The commit `constructor: <description>` is lost from changelog.js's output, and kept under Chores here. */
  lemma ConstructorCommitDropped(c: Commit, description: string, title: string)
    requires |description| >= 1 && SingleLine(description) && c.subject == "constructor: " + description
    ensures ParseCommit(c).ctype == "constructor"
    ensures ParseCommit(c) !in SectionAsWritten(TypeMapJs, [ParseCommit(c)], title)
    ensures ParseCommit(c) in Section(TypeMapJs, [ParseCommit(c)], ChoresLabel)
  {
    ConstructorParses(c, description);
    ConstructorNotAType();
    var e := ParseCommit(c);
    PrototypeTypeDropped(TypeMapJs, [e], e, title);
    UnknownTypeUnderChores(TypeMapJs, [e], e);
  }

  lemma ConstructorParses(c: Commit, description: string)
    requires |description| >= 1 && SingleLine(description) && c.subject == "constructor: " + description
    ensures ParseCommit(c).ctype == "constructor"
  {
    var ctype := "constructor";
    ConstructorIsWord();
    ParseSubjectRoundTrip(ctype, None, description);
    assert ScopeText(None) == "";
    assert ctype + (ScopeText(None) + ": " + description) == c.subject;
  }

  lemma ConstructorIsWord()
    ensures forall i :: 0 <= i < |"constructor"| ==> IsWordChar("constructor"[i])
  {
  }

  lemma ConstructorNotAType()
    ensures "constructor" in ObjectPrototypeNames && !OrderedMaps.Has(TypeMapJs, "constructor")
  {
    var keys := OrderedMaps.Keys(TypeMapJs);
    forall i | 0 <= i < |keys| ensures keys[i] != "constructor" {
      assert keys[i] == TypeMapJs[i].0;
    }
  }

  /** The `parsedCommits.forEach` that fills `groupedCommits`. */
  method GroupEntries(typeMap: TypeMap, entries: seq<Entry>) returns (groups: seq<(string, seq<Entry>)>)
    ensures forall title :: OrderedMaps.Get(groups, title) == SectionEntry(typeMap, entries, title)
  {
    groups := [];
    for i := 0 to |entries|
      invariant Grouped(groups, typeMap, entries[..i])
    {
      var title := TypeLabel(typeMap, entries[i].ctype);
      var existing := OrderedMaps.Get(groups, title);
      var g := if existing.Some? then existing.value else [];
      GroupPush(groups, typeMap, entries, i, g);
      groups := OrderedMaps.Set(groups, title, g + [entries[i]]);
    }
    assert entries[..|entries|] == entries;
  }

  // ---------------------------------------------------------------------------------------
  // Rendering

  /** The spacing of a changelog line: after the bold scope, and between description and author. */
  datatype Style = Style(scopeSep: string, authorSep: string)

  /** `commit.scope ? `**${commit.scope}:**` : ''`, with the style's separator after it. */
  function ScopeMark(scope: Option<string>, sep: string): string {
    if scope.Some? && scope.value != "" then "**" + scope.value + ":**" + sep else ""
  }

  /** One commit line: `- scope description author (link)`. */
  function Line(e: Entry, repoUrl: string, style: Style): string {
    "- " + ScopeMark(e.scope, style.scopeSep) + e.description + style.authorSep + e.author + " (" + CommitLink(e.hash, repoUrl) + ")\n"
  }

  /** A commit line is a list item that ends with the link to the full commit. */
  lemma LineShape(e: Entry, repoUrl: string, style: Style)
    ensures StartsWith(Line(e, repoUrl, style), "- ") && EndsWith(Line(e, repoUrl, style), "/commit/" + e.hash + "))\n")
  {
    var link := CommitLink(e.hash, repoUrl);
    var pre := "- " + ScopeMark(e.scope, style.scopeSep) + e.description + style.authorSep + e.author + " (";
    assert Line(e, repoUrl, style) == pre + link + ")\n";
    EndsWithAppend(link, "/commit/" + e.hash + ")", ")\n", pre);
    assert (pre + link + ")\n")[..2] == pre[..2];
  }

  lemma EndsWithAppend(s: string, suf: string, tail: string, pre: string)
    requires EndsWith(s, suf)
    ensures EndsWith(pre + s + tail, suf + tail)
  {
    var t := pre + s + tail;
    assert t[|t| - |suf + tail|..] == s[|s| - |suf|..] + tail;
  }

  /** The lines of a section's commits, in order. */
  function Lines(es: seq<Entry>, repoUrl: string, style: Style): string {
    if |es| == 0 then "" else Lines(es[..|es| - 1], repoUrl, style) + Line(es[|es| - 1], repoUrl, style)
  }

  /** A section: nothing for an empty group, else its heading, its lines and a blank line. */
  function SectionText(title: string, es: seq<Entry>, repoUrl: string, style: Style): (r: string)
    ensures es == [] <==> r == ""
  {
    if es == [] then "" else Heading(title) + Lines(es, repoUrl, style) + "\n"
  }

  /** `### label` and a blank line. */
  function Heading(title: string): string {
    "### " + title + "\n\n"
  }

  /** The sections for `labels`, in that order. */
  function SectionsText(typeMap: TypeMap, labels: seq<string>, entries: seq<Entry>, repoUrl: string, style: Style): string {
    Concat(Map(labels, SectionOf(typeMap, entries, repoUrl, style)))
  }

  function SectionOf(typeMap: TypeMap, entries: seq<Entry>, repoUrl: string, style: Style): string -> string {
    (title: string) => LabelSection(typeMap, entries, title, repoUrl, style)
  }

  /** The section of one label, written from the entries filed under it. */
  function LabelSection(typeMap: TypeMap, entries: seq<Entry>, title: string, repoUrl: string, style: Style): string {
    SectionText(title, Section(typeMap, entries, title), repoUrl, style)
  }

  /** The `typeOrder.forEach` that writes one section per label that has commits, in `typeMap` order. */
  method RenderSections(typeMap: TypeMap, entries: seq<Entry>, repoUrl: string, style: Style) returns (text: string)
    ensures text == SectionsText(typeMap, OrderedMaps.Values(typeMap), entries, repoUrl, style)
  {
    var groups := GroupEntries(typeMap, entries);
    var labels := OrderedMaps.Values(typeMap);
    text := "";
    for k := 0 to |labels|
      invariant text == SectionsText(typeMap, labels[..k], entries, repoUrl, style)
    {
      var title := labels[k];
      var found := OrderedMaps.Get(groups, title);
      var piece := "";
      if found.Some? {
        piece := RenderSection(title, found.value, repoUrl, style);
      }
      SectionsStep(typeMap, labels, k, entries, repoUrl, style, found, piece);
      text := text + piece;
    }
    assert labels[..|labels|] == labels;
  }

  /** One pass of the loop: the label's group, when there is one, is written after the sections so far. */
  lemma SectionsStep(typeMap: TypeMap, labels: seq<string>, k: nat, entries: seq<Entry>, repoUrl: string, style: Style,
                     found: Option<seq<Entry>>, piece: string)
    requires k < |labels| && found == SectionEntry(typeMap, entries, labels[k])
    requires piece == if found.Some? then SectionText(labels[k], found.value, repoUrl, style) else ""
    ensures SectionsText(typeMap, labels[..k + 1], entries, repoUrl, style) == SectionsText(typeMap, labels[..k], entries, repoUrl, style) + piece
  {
    assert piece == LabelSection(typeMap, entries, labels[k], repoUrl, style);
    ConcatMapSnoc(labels, k, SectionOf(typeMap, entries, repoUrl, style));
  }

  /** One label's heading, the `groupedCommits[typeLabel].forEach` over its commits, and the blank line after. */
  method RenderSection(title: string, es: seq<Entry>, repoUrl: string, style: Style) returns (text: string)
    requires es != []
    ensures text == SectionText(title, es, repoUrl, style)
  {
    text := Heading(title);
    for j := 0 to |es|
      invariant text == Heading(title) + Lines(es[..j], repoUrl, style)
    {
      LinesSnoc(es, j, repoUrl, style);
      AppendAssoc(Heading(title), Lines(es[..j], repoUrl, style), Line(es[j], repoUrl, style));
      text := text + Line(es[j], repoUrl, style);
    }
    assert es[..|es|] == es;
    text := text + "\n";
  }

  lemma LinesSnoc(es: seq<Entry>, j: nat, repoUrl: string, style: Style)
    requires j < |es|
    ensures Lines(es[..j + 1], repoUrl, style) == Lines(es[..j], repoUrl, style) + Line(es[j], repoUrl, style)
  {
    assert es[..j + 1][..j] == es[..j];
  }

  /** Sections over appended labels are the sections of each part, one after the other. */
  lemma SectionsAppend(typeMap: TypeMap, xs: seq<string>, ys: seq<string>, entries: seq<Entry>, repoUrl: string, style: Style)
    ensures SectionsText(typeMap, xs + ys, entries, repoUrl, style) == SectionsText(typeMap, xs, entries, repoUrl, style) + SectionsText(typeMap, ys, entries, repoUrl, style)
  {
    ConcatMapAppend(xs, ys, SectionOf(typeMap, entries, repoUrl, style));
  }

  /** A label without commits adds nothing; one with commits adds its heading and lines, in place. */
  lemma SectionsOfOneLabel(typeMap: TypeMap, before: seq<string>, title: string, after: seq<string>, entries: seq<Entry>, repoUrl: string, style: Style)
    ensures SectionsText(typeMap, before + [title] + after, entries, repoUrl, style) ==
      SectionsText(typeMap, before, entries, repoUrl, style) + LabelSection(typeMap, entries, title, repoUrl, style) + SectionsText(typeMap, after, entries, repoUrl, style)
  {
    SectionsAppend(typeMap, before + [title], after, entries, repoUrl, style);
    SectionsAppend(typeMap, before, [title], entries, repoUrl, style);
    assert [title][..0] == [];
  }

  // ---------------------------------------------------------------------------------------
  // Versions

  /** `getCommitsBetween(from, to)`: what `git log` lists after `from` (everything without one) up to `to`. */
  type CommitLog = (Option<string>, string) -> seq<Commit>

  /** `uniqueTags[i + 1]`: the tag before the `i`-th, when there is one. */
  function PreviousTag(tags: seq<string>, i: nat): Option<string> {
    if i + 1 < |tags| then Some(tags[i + 1]) else None
  }

  /** The heading link: a comparison with the previous tag, or the release page of the first one. */
  function CompareUrl(repoUrl: string, previous: Option<string>, current: string): string {
    if previous.Some? && previous.value != "" then repoUrl + "/compare/" + previous.value + "..." + current
    else repoUrl + "/releases/tag/" + current
  }

  /** `parsedCommits[0]?.date || today`. */
  function VersionDate(entries: seq<Entry>, today: string): (date: string)
    ensures date == today || (|entries| > 0 && date == entries[0].date)
  {
    if |entries| > 0 && entries[0].date != "" then entries[0].date else today
  }

  /** `## [tag](url) - date` and a blank line. */
  function VersionHeading(tag: string, url: string, date: string): string {
    "## [" + tag + "](" + url + ") - " + date + "\n\n"
  }

  /** The text `generateChangelog` starts from. */
  const Preamble := "# Changelog\n\nAll notable changes to this project will be documented in this file.\n\n" +
    "The format is based on [Keep a Changelog](https://keepachangelog.com/en/1.0.0/),\n" +
    "and this project adheres to [Semantic Versioning](https://semver.org/spec/v2.0.0.html).\n\n"

  /**
   * What differs between the scripts' version blocks: the label table, how a version's commits
   * become entries, and the spacing of a line.
   */
  datatype Flavor = Flavor(typeMap: TypeMap, parse: seq<Commit> -> seq<Entry>, style: Style)

  /** `commits.map(parseCommit)`: one entry per commit. */
  function ParseAll(commits: seq<Commit>): (entries: seq<Entry>)
    ensures |entries| == |commits| && forall i :: 0 <= i < |commits| ==> entries[i] == ParseCommit(commits[i])
  {
    Map(commits, ParseCommit)
  }

  /** The version blocks of changelog.js's `generateChangelog`: no space after the scope nor before the author. */
  const JsVersions := Flavor(TypeMapJs, ParseAll, Style("", ""))

  /** A version's heading and sections, from the commits `git log` gave for it. */
  function VersionText(flavor: Flavor, repoUrl: string, tag: string, previous: Option<string>, commits: seq<Commit>, today: string): string
  {
    var entries := flavor.parse(commits);
    var heading := VersionHeading(tag, CompareUrl(repoUrl, previous, tag), VersionDate(entries, today));
    heading + SectionsText(flavor.typeMap, OrderedMaps.Values(flavor.typeMap), entries, repoUrl, flavor.style)
  }

  /** Writes a version's heading and its sections. */
  method RenderVersion(flavor: Flavor, repoUrl: string, tag: string, previous: Option<string>, commits: seq<Commit>, today: string) returns (text: string)
    ensures text == VersionText(flavor, repoUrl, tag, previous, commits, today)
  {
    var entries := flavor.parse(commits);
    text := VersionHeading(tag, CompareUrl(repoUrl, previous, tag), VersionDate(entries, today));
    var sections := RenderSections(flavor.typeMap, entries, repoUrl, flavor.style);
    text := text + sections;
  }

  /** The block of the `i`-th tag: nothing when it has no commits, else its heading and its sections. */
  function VersionBlock(flavor: Flavor, repoUrl: string, tags: seq<string>, i: nat, log: CommitLog, today: string): (r: string)
    requires i < |tags|
    ensures log(PreviousTag(tags, i), tags[i]) == [] <==> r == ""
  {
    var commits := log(PreviousTag(tags, i), tags[i]);
    if |commits| == 0 then "" else VersionText(flavor, repoUrl, tags[i], PreviousTag(tags, i), commits, today)
  }

  /** The blocks of the first `n` tags, newest first. */
  function Versions(flavor: Flavor, repoUrl: string, tags: seq<string>, n: nat, log: CommitLog, today: string): string
    requires n <= |tags|
  {
    if n == 0 then "" else Versions(flavor, repoUrl, tags, n - 1, log, today) + VersionBlock(flavor, repoUrl, tags, n - 1, log, today)
  }

  /** The `for` loop over the tags, newest first: a tag without commits is skipped (`continue`). */
  method AppendVersions(flavor: Flavor, repoUrl: string, tags: seq<string>, log: CommitLog, today: string, start: string) returns (changelog: string)
    ensures changelog == start + Versions(flavor, repoUrl, tags, |tags|, log, today)
  {
    changelog := start;
    for i := 0 to |tags|
      invariant changelog == start + Versions(flavor, repoUrl, tags, i, log, today)
    {
      var previous := PreviousTag(tags, i);
      var commits := log(previous, tags[i]);
      if |commits| == 0 {
        SkippedVersion(flavor, repoUrl, tags, i, log, today, start, changelog);
        continue;
      }
      var block := RenderVersion(flavor, repoUrl, tags[i], previous, commits, today);
      VersionsStep(flavor, repoUrl, tags, i, log, today, start, changelog, block);
      changelog := changelog + block;
    }
  }

  /** A tag without commits adds nothing. */
  lemma SkippedVersion(flavor: Flavor, repoUrl: string, tags: seq<string>, i: nat, log: CommitLog, today: string,
                       start: string, changelog: string)
    requires i < |tags| && changelog == start + Versions(flavor, repoUrl, tags, i, log, today)
    requires log(PreviousTag(tags, i), tags[i]) == []
    ensures changelog == start + Versions(flavor, repoUrl, tags, i + 1, log, today)
  {
    VersionsStep(flavor, repoUrl, tags, i, log, today, start, changelog, "");
    assert changelog + "" == changelog;
  }

  /** One pass of the loop: the tag's block, or nothing, goes after the text so far. */
  lemma VersionsStep(flavor: Flavor, repoUrl: string, tags: seq<string>, i: nat, log: CommitLog, today: string,
                     start: string, changelog: string, block: string)
    requires i < |tags| && changelog == start + Versions(flavor, repoUrl, tags, i, log, today)
    requires block == if log(PreviousTag(tags, i), tags[i]) == [] then ""
      else VersionText(flavor, repoUrl, tags[i], PreviousTag(tags, i), log(PreviousTag(tags, i), tags[i]), today)
    ensures changelog + block == start + Versions(flavor, repoUrl, tags, i + 1, log, today)
  {
    assert VersionBlock(flavor, repoUrl, tags, i, log, today) == block;
    assert Versions(flavor, repoUrl, tags, i + 1, log, today) == Versions(flavor, repoUrl, tags, i, log, today) + VersionBlock(flavor, repoUrl, tags, i, log, today);
    AppendAssoc(start, Versions(flavor, repoUrl, tags, i, log, today), block);
  }

  /** `generateChangelog()` of changelog.js, given the repository URL, `getGitTags()`, the log and today's date. */
  method GenerateChangelog(repoUrl: string, gitTags: seq<string>, log: CommitLog, today: string) returns (r: string)
    ensures r == CollapseNewlines(Preamble + Versions(JsVersions, repoUrl, UniqueTags(gitTags), |UniqueTags(gitTags)|, log, today))
    ensures NoTripleNewline(r)
  {
    var tags := UniqueTags(gitTags);
    var changelog := AppendVersions(JsVersions, repoUrl, tags, log, today, Preamble);
    r := CollapseNewlines(changelog);
    CollapseHasNoTriple(changelog);
  }

  /**
   * Every commit of a version is shown in a section that is written: none is lost. As written,
   * that holds exactly for the commits whose type is a key of the map or no inherited name.
   */
  lemma EveryEntryShown(entries: seq<Entry>, e: Entry)
    requires e in entries
    ensures var title := TypeLabel(TypeMapJs, e.ctype);
      title in OrderedMaps.Values(TypeMapJs) && e in Section(TypeMapJs, entries, title)
    ensures var title := TypeLabel(TypeMapJs, e.ctype);
      e in SectionAsWritten(TypeMapJs, entries, title) <==> OrderedMaps.Has(TypeMapJs, e.ctype) || e.ctype !in ObjectPrototypeNames
  {
    LabelInValues(TypeMapJs, e.ctype);
    ChoresIsALabel();
    EntryFiled(TypeMapJs, entries, e, TypeLabel(TypeMapJs, e.ctype));
    EntryFiledAsWritten(TypeMapJs, entries, e, TypeLabel(TypeMapJs, e.ctype));
  }

  /** The label of a type is one of the map's labels, or Chores. */
  lemma LabelInValues(typeMap: TypeMap, t: string)
    ensures TypeLabel(typeMap, t) in OrderedMaps.Values(typeMap) || TypeLabel(typeMap, t) == ChoresLabel
  {
    var title := TypeLabel(typeMap, t);
    if title != ChoresLabel {
      var i :| 0 <= i < |typeMap| && typeMap[i] == (t, title);
      assert OrderedMaps.Values(typeMap)[i] == title;
    }
  }

  // ---------------------------------------------------------------------------------------
  // The latest version with links to the earlier ones

  /** The newest version in changelog.js's latest-version text: a space after the scope, none before the author. */
  const JsLatest := Flavor(TypeMapJs, ParseAll, Style(" ", ""))

  /** `- [tag](compare link)` for the `i`-th tag against the one before it. */
  function VersionLink(tags: seq<string>, repoUrl: string, i: nat): string
    requires i + 1 < |tags|
  {
    "- [" + tags[i] + "](" + repoUrl + "/compare/" + tags[i + 1] + "..." + tags[i] + ")\n"
  }

  /** The links of the "Previous Versions" list: every tag but the newest and the oldest, newest first. */
  function PreviousLinks(tags: seq<string>, repoUrl: string): (links: seq<string>)
    ensures |links| == if |tags| >= 2 then |tags| - 2 else 0
    ensures forall k :: 0 <= k < |links| ==> links[k] == VersionLink(tags, repoUrl, k + 1)
  {
    if |tags| < 3 then []
    else
      var rest := PreviousLinks(tags[1..], repoUrl);
      assert forall k :: 0 <= k < |rest| ==> rest[k] == VersionLink(tags, repoUrl, k + 2) by {
        forall k | 0 <= k < |rest| ensures rest[k] == VersionLink(tags, repoUrl, k + 2) {
          assert tags[1..][k + 1] == tags[k + 2] && tags[1..][k + 2] == tags[k + 3];
        }
      }
      [VersionLink(tags, repoUrl, 1)] + rest
  }

  /** The `for (let i = 1; i < uniqueTags.length - 1; i++)` loop that writes the list. */
  method PreviousVersions(tags: seq<string>, repoUrl: string) returns (text: string)
    ensures text == Concat(PreviousLinks(tags, repoUrl))
  {
    text := "";
    var links := PreviousLinks(tags, repoUrl);
    if |tags| >= 3 {
      for i := 1 to |tags| - 1
        invariant text == Concat(links[..i - 1])
      {
        assert links[..i][..i - 1] == links[..i - 1];
        text := text + VersionLink(tags, repoUrl, i);
      }
      assert links[..|tags| - 2] == links;
    }
  }

  /** The newest version in full, then the "Previous Versions" list, before the newline clean-up. */
  function LatestBody(flavor: Flavor, repoUrl: string, tags: seq<string>, log: CommitLog, today: string): string
    requires |tags| > 0
  {
    VersionText(flavor, repoUrl, tags[0], PreviousTag(tags, 0), log(PreviousTag(tags, 0), tags[0]), today)
      + "---\n\n### Previous Versions\n\n" + Concat(PreviousLinks(tags, repoUrl))
  }

  /** `generateLatestChangelogWithLinks()` once there is a tag: unlike the full changelog, a newest tag without commits still gets its heading. */
  method LatestTagged(flavor: Flavor, repoUrl: string, tags: seq<string>, log: CommitLog, today: string) returns (r: string)
    requires |tags| > 0
    ensures r == CollapseNewlines(LatestBody(flavor, repoUrl, tags, log, today)) && NoTripleNewline(r)
  {
    var previous := PreviousTag(tags, 0);
    var changelog := RenderVersion(flavor, repoUrl, tags[0], previous, log(previous, tags[0]), today);
    changelog := changelog + "---\n\n### Previous Versions\n\n";
    var links := PreviousVersions(tags, repoUrl);
    changelog := changelog + links;
    r := CollapseNewlines(changelog);
    CollapseHasNoTriple(changelog);
  }

  /** `generateLatestChangelogWithLinks()` of changelog.js: the newest version in full, then links to the others. */
  method LatestWithLinks(repoUrl: string, gitTags: seq<string>, log: CommitLog, today: string) returns (r: string)
    ensures UniqueTags(gitTags) == [] ==> r == "No tags found."
    ensures UniqueTags(gitTags) != [] ==> r == CollapseNewlines(LatestBody(JsLatest, repoUrl, UniqueTags(gitTags), log, today)) && NoTripleNewline(r)
  {
    var tags := UniqueTags(gitTags);
    if |tags| == 0 {
      return "No tags found.";
    }
    r := LatestTagged(JsLatest, repoUrl, tags, log, today);
  }
}
