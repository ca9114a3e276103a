/**
 * The repository helpers the release scripts share (`scripts/utils/github.js` and its ESM
 * copy `github.mjs`, which agree line for line): the remote URL in `https://github.com/`
 * form, the owner and repository name taken from it, and the tag list. What `git` prints
 * (or `None` when the command fails) and package.json's `repository` field are parameters.
 */
module GitHub {
  import opened Wrappers
  import opened JsStrings
  import opened JsValues
  import opened Lists

  const Host := "github.com"
  const SshPrefix := "git@github.com:"
  const HttpsPrefix := "https://github.com/"

  /**
   * The package.json fallback, `pkgJson?.repository?.url.replace(/^git\+/, '')
   * .replace(/\.git$/, '') ?? ''`: empty without a `repository`; a `repository` whose `url`
   * is not a string makes `.replace` throw.
   */
  function PackageUrl(repository: Value): (r: Result<string, Thrown>)
    ensures Nullish(repository) ==> r == Ok("")
    ensures !Nullish(repository) ==> var url := Get(repository, "url").value;
      (r.Ok? <==> url.Str?) &&
      (url.Str? && !StartsWith(url.s, "git+") ==> r.value == url.s || r.value + ".git" == url.s)
  {
    if Nullish(repository) then Ok("")
    else
      var url := Get(repository, "url").value;
      if url.Str? then Ok(StripSuffix(ReplacePrefix(url.s, "git+", ""), ".git"))
      else Err(TypeError("url.replace is not a function"))
  }

  /** The last step of `getRepoUrl`: drop one trailing `.git`, then turn the SSH form into HTTPS. */
  function Normalize(url: string): (r: string)
    ensures !EndsWith(url, ".git") && !StartsWith(url, SshPrefix) ==> r == url
  {
    ReplacePrefix(StripSuffix(url, ".git"), SshPrefix, HttpsPrefix)
  }

  /**
   * `getRepoUrl()`: the trimmed `git config --get remote.origin.url`, or when that fails
   * the package.json fallback, normalised. The `GITHUB_REPOSITORY_URL` variable it reads
   * first is overwritten on both paths, so it never matters.
   */
  function RepoUrl(remote: Option<string>, repository: Value): (r: Result<string, Thrown>)
    ensures r.Err? <==> remote.None? && PackageUrl(repository).Err?
    ensures r.Err? ==> r == Err(PackageUrl(repository).error)
    ensures remote.None? && PackageUrl(repository).Ok? ==> r == Ok(Normalize(PackageUrl(repository).value))
  {
    if remote.Some? then Ok(Normalize(Trim(remote.value)))
    else
      match PackageUrl(repository)
      case Err(e) => Err(e)
      case Ok(u) => Ok(Normalize(u))
  }

  /**
   * When git reports a remote, package.json is never consulted; otherwise the fallback's
   * failure is `getRepoUrl`'s, and a `repository` with a string `url` always gives a URL.
   */
  lemma RepoUrlSources(remote: Option<string>, repository: Value, other: Value)
    ensures remote.Some? ==> RepoUrl(remote, repository) == RepoUrl(remote, other) && RepoUrl(remote, repository).Ok?
    ensures remote.None? ==> (RepoUrl(remote, repository).Err? <==> PackageUrl(repository).Err?)
  {
  }

  /** An SSH remote comes out in HTTPS form, without its `.git`. */
  lemma SshRemote(path: string)
    requires !EndsWith(path, ".git")
    ensures Normalize(SshPrefix + path + ".git") == HttpsPrefix + path
  {
    var s := SshPrefix + path + ".git";
    assert EndsWith(s, ".git");
    var t := StripSuffix(s, ".git");
    assert t == SshPrefix + path;
    assert StartsWith(t, SshPrefix);
    assert t[|SshPrefix|..] == path;
  }

  /** Owner and repository name. */
  datatype RepoInfo = RepoInfo(owner: string, repo: string)

  /** `t` is `owner/repo` with both parts non-empty and free of `/`. */
  predicate TwoSegments(t: string) {
    '/' in t && 0 < CharIndex(t, '/') < |t| - 1 && '/' !in t[CharIndex(t, '/') + 1..]
  }

  /** `github\.com[\/:]([^\/]+)\/([^\/]+)(?:\.git)?$` matches starting at `i`. */
  predicate MatchesAt(url: string, i: nat) {
    OccursAt(url, Host, i) && i + |Host| < |url| && url[i + |Host|] in {'/', ':'} && TwoSegments(url[i + |Host| + 1..])
  }

  /** Where the leftmost match starts, at `from` or later. */
  function FindMatch(url: string, from: nat): (r: Option<nat>)
    ensures r.Some? ==> from <= r.value && MatchesAt(url, r.value)
    ensures forall j: nat :: from <= j && (r.None? || j < r.value) ==> !MatchesAt(url, j)
    decreases |url| - from
  {
    if from >= |url| then None
    else if MatchesAt(url, from) then Some(from)
    else FindMatch(url, from + 1)
  }

  /**
   * The pattern match of `getRepoInfo`: the two last path segments after `github.com/` or
   * `github.com:` (a `.git` tail is swallowed by the greedy second group), then the first
   * `.git` in the name removed. No match leaves `gitMatch` null, and indexing it throws.
   */
  function ParseRepoUrl(url: string): (r: Result<RepoInfo, Thrown>)
    ensures r.Err? <==> forall j: nat :: !MatchesAt(url, j)
  {
    match FindMatch(url, 0)
    case None => Err(TypeError("cannot read properties of null"))
    case Some(i) =>
      var t := url[i + |Host| + 1..];
      var j := CharIndex(t, '/');
      Ok(RepoInfo(t[..j], ReplaceFirst(t[j + 1..], ".git", "")))
  }

  /** `getRepoInfo()`. */
  function GetRepoInfo(remote: Option<string>, repository: Value): (r: Result<RepoInfo, Thrown>)
    ensures RepoUrl(remote, repository).Err? ==> r == Err(RepoUrl(remote, repository).error)
    ensures RepoUrl(remote, repository).Ok? ==>
      (r.Err? <==> forall j: nat :: !MatchesAt(RepoUrl(remote, repository).value, j))
  {
    match RepoUrl(remote, repository)
    case Err(e) => Err(e)
    case Ok(url) => ParseRepoUrl(url)
  }

  /**
   * Owner and name come back from any URL that has them after `github.com/` or
   * `github.com:`, provided nothing before could start a match; a name's first `.git` is
   * removed.
   */
  lemma ParseRepoUrlParts(prefix: string, sep: char, owner: string, repo: string)
    requires 'g' !in prefix && (sep == '/' || sep == ':')
    requires |owner| > 0 && |repo| > 0 && '/' !in owner && '/' !in repo
    ensures ParseRepoUrl(prefix + Host + [sep] + (owner + "/" + repo)) == Ok(RepoInfo(owner, ReplaceFirst(repo, ".git", "")))
  {
    var url := prefix + Host + [sep] + (owner + "/" + repo);
    SegmentsOf(owner, repo);
    HostAt(prefix, sep, owner + "/" + repo);
    NoMatchBefore(url, |prefix|);
    FirstMatch(url, 0, |prefix|);
    ParseAfterHost(url, |prefix|, owner, repo);
  }

  /** What the parse returns once the match is known to start at `i`. */
  lemma ParseAfterHost(url: string, i: nat, owner: string, repo: string)
    requires FindMatch(url, 0) == Some(i)
    requires |owner| > 0 && |repo| > 0 && '/' !in owner && '/' !in repo
    requires url[i + |Host| + 1..] == owner + "/" + repo
    ensures ParseRepoUrl(url) == Ok(RepoInfo(owner, ReplaceFirst(repo, ".git", "")))
  {
    var t := url[i + |Host| + 1..];
    SegmentsOf(owner, repo);
    assert CharIndex(t, '/') == |owner| && t[..|owner|] == owner && t[|owner| + 1..] == repo;
  }

  /** A match starts right after `prefix` when `Host` and a separator come next. */
  lemma HostAt(prefix: string, sep: char, rest: string)
    requires 'g' !in prefix && (sep == '/' || sep == ':') && TwoSegments(rest)
    ensures var url := prefix + Host + [sep] + rest;
      MatchesAt(url, |prefix|) && url[|prefix| + |Host| + 1..] == rest &&
      forall j :: 0 <= j < |prefix| ==> url[j] != 'g'
  {
    var url := prefix + Host + [sep] + rest;
    assert url[|prefix|..|prefix| + |Host|] == Host;
    assert url[|prefix| + |Host|] == sep;
    assert url[|prefix| + |Host| + 1..] == rest;
    forall j | 0 <= j < |prefix| ensures url[j] != 'g' {
      assert url[j] == prefix[j];
    }
  }

  /** How `owner/repo` splits at its first slash. */
  lemma SegmentsOf(owner: string, repo: string)
    requires |owner| > 0 && |repo| > 0 && '/' !in owner && '/' !in repo
    ensures var t := owner + "/" + repo;
      TwoSegments(t) && CharIndex(t, '/') == |owner| && t[..|owner|] == owner && t[|owner| + 1..] == repo
  {
    var t := owner + "/" + repo;
    assert t[|owner|] == '/';
    assert t[..|owner|] == owner;
    assert CharIndex(t, '/') == |owner|;
    assert t[|owner| + 1..] == repo;
  }

  /** `github.com` cannot start where there is no `g`. */
  lemma NoMatchBefore(url: string, n: nat)
    requires n <= |url| && forall j :: 0 <= j < n ==> url[j] != 'g'
    ensures forall j: nat :: j < n ==> !MatchesAt(url, j)
  {
    assert Host[0] == 'g';
  }

  /** The search stops at the first match. */
  lemma {:induction false} FirstMatch(url: string, from: nat, i: nat)
    requires from <= i && MatchesAt(url, i)
    requires forall j: nat :: from <= j < i ==> !MatchesAt(url, j)
    ensures FindMatch(url, from) == Some(i)
    decreases i - from
  {
    if from < i {
      FirstMatch(url, from + 1, i);
    }
  }

  /** The usual remote, `https://github.com/owner/repo`, gives back its owner and name. */
  lemma HttpsRoundTrip(owner: string, repo: string)
    requires |owner| > 0 && |repo| > 0 && '/' !in owner && '/' !in repo && !Includes(repo, ".git")
    ensures ParseRepoUrl(HttpsPrefix + owner + "/" + repo) == Ok(RepoInfo(owner, repo))
  {
    assert HttpsPrefix + owner + "/" + repo == "https://" + Host + ['/'] + (owner + "/" + repo);
    ParseRepoUrlParts("https://", '/', owner, repo);
  }

  /** A URL with no `github.com` in it fails. */
  lemma NonGitHubFails(url: string)
    requires forall j: nat :: !OccursAt(url, Host, j)
    ensures ParseRepoUrl(url).Err?
  {
  }

  /** `getGitTags()`: the non-empty lines of the trimmed output, in order; `[]` when git fails. */
  function GitTags(output: Option<string>): (tags: seq<string>)
    ensures forall i :: 0 <= i < |tags| ==> tags[i] != "" && '\n' !in tags[i]
    ensures output.None? ==> tags == []
  {
    match output
    case None => []
    case Some(s) =>
      var lines := Split(Trim(s), '\n');
      var tags := Filter(lines, (t: string) => t != "");
      assert forall i :: 0 <= i < |tags| ==> tags[i] in lines by {
        forall i | 0 <= i < |tags| ensures tags[i] in lines {
          FilterMembers(lines, (t: string) => t != "", tags[i]);
        }
      }
      tags
  }

  /** Tags printed one per line come back as they were. */
  lemma TagsRoundTrip(tags: seq<string>)
    requires |tags| >= 1
    requires forall i :: 0 <= i < |tags| ==> tags[i] != "" && '\n' !in tags[i]
    requires !IsSpace(tags[0][0]) && !IsSpace(tags[|tags| - 1][|tags[|tags| - 1]| - 1])
    ensures GitTags(Some(Join(tags, "\n") + "\n")) == tags
  {
    var s := Join(tags, "\n");
    JoinEnds(tags, '\n');
    TrimDropsLastSpace(s, '\n');
    SplitJoin(tags, '\n');
    FilterKeepsAll(tags, (t: string) => t != "");
  }

  /** A joined list starts with the first element's first character and ends with the last's last one. */
  lemma {:induction false} JoinEnds(parts: seq<string>, sep: char)
    requires |parts| >= 1 && forall i :: 0 <= i < |parts| ==> parts[i] != ""
    ensures var s := Join(parts, [sep]); |s| > 0 && s[0] == parts[0][0] && s[|s| - 1] == parts[|parts| - 1][|parts[|parts| - 1]| - 1]
  {
    if |parts| > 1 {
      var rest := Join(parts[1..], [sep]);
      JoinEnds(parts[1..], sep);
      var last := parts[1..][|parts[1..]| - 1];
      assert last == parts[|parts| - 1];
      var s := parts[0] + [sep] + rest;
      assert Join(parts, [sep]) == s;
      assert s[0] == parts[0][0];
      assert s[|s| - 1] == rest[|rest| - 1];
    }
  }

  /** Trimming `s` plus a trailing space character gives `s`, when `s` has no space at either end. */
  lemma TrimDropsLastSpace(s: string, c: char)
    requires |s| > 0 && !IsSpace(s[0]) && !IsSpace(s[|s| - 1]) && IsSpace(c)
    ensures Trim(s + [c]) == s
  {
    var t := s + [c];
    assert TrimStart(t) == t;
    assert t[..|t| - 1] == s;
    assert TrimEnd(t) == TrimEnd(s);
  }
}
