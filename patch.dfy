/**
 * `scripts/patch.mjs`: after compilation it rewrites the placeholders in `index.js` (version
 * and package name) and in `extend.js` (also the GitHub owner and repository, taken from
 * package.json's `repository.url`). package.json's fields and the command-line arguments
 * are parameters; reading and writing the two files is not modelled.
 */
module PatchScript {
  import opened Wrappers
  import opened JsStrings
  import opened JsValues
  import opened Placeholders
  import GitHub

  /**
   * `version()`: `v`, the package version as a template literal prints it, then `|GH` when
   * `--gh` and `|NPM` when `--npm` is among the arguments. The `try` and the `?? 'v0.0.1'`
   * around it can never take effect: a template literal neither throws here nor is nullish.
   */
  function Version(pkgVersion: Value, argv: seq<string>): (r: string)
    ensures StartsWith(r, "v" + ToText(pkgVersion))
  {
    "v" + ToText(pkgVersion) + (if "--gh" in argv then "|GH" else "") + (if "--npm" in argv then "|NPM" else "")
  }

  /** The flags a version string carries, in the order `version()` writes them. */
  function Flags(argv: seq<string>): seq<string> {
    (if "--gh" in argv then ["GH"] else []) + (if "--npm" in argv then ["NPM"] else [])
  }

  /** Splitting the version at `|` gives the version proper and then the flags. */
  lemma VersionFields(pkgVersion: Value, argv: seq<string>)
    requires '|' !in ToText(pkgVersion)
    ensures Split(Version(pkgVersion, argv), '|') == ["v" + ToText(pkgVersion)] + Flags(argv)
  {
    var head := "v" + ToText(pkgVersion);
    var parts := [head] + Flags(argv);
    assert '|' !in head by {
      assert forall i :: 1 <= i < |head| ==> head[i] == ToText(pkgVersion)[i - 1];
    }
    JoinFlags(head, "--gh" in argv, "--npm" in argv);
    assert Version(pkgVersion, argv) == Join(parts, "|");
    SplitJoin(parts, '|');
  }

  /** `head` followed by the written flags is the `|`-join of `head` and their names. */
  lemma JoinFlags(head: string, gh: bool, npm: bool)
    ensures head + (if gh then "|GH" else "") + (if npm then "|NPM" else "") ==
      Join([head] + (if gh then ["GH"] else []) + (if npm then ["NPM"] else []), "|")
  {
    if gh && npm {
      assert [head] + ["GH"] + ["NPM"] == [head, "GH", "NPM"];
      assert Join([head, "GH", "NPM"], "|") == head + "|" + Join(["GH", "NPM"], "|");
      assert Join(["GH", "NPM"], "|") == "GH" + "|" + Join(["NPM"], "|");
    } else if gh {
      assert [head] + ["GH"] + [] == [head, "GH"];
      assert Join([head, "GH"], "|") == head + "|" + Join(["GH"], "|");
    } else if npm {
      assert [head] + [] + ["NPM"] == [head, "NPM"];
      assert Join([head, "NPM"], "|") == head + "|" + Join(["NPM"], "|");
    } else {
      assert [head] + [] + [] == [head];
    }
  }

  /** The `index.js` callback: version and name are filled in, any other placeholder stays. */
  function IndexReplacer(version: string, name: Value): (r: Replacer)
    ensures forall m, key :: r(m, key).Ok?
    ensures forall m :: r(m, "version") == Ok(version) && r(m, "name") == Ok(ToText(name))
    ensures forall m, key :: key != "version" && key != "name" ==> r(m, key) == Ok(m)
  {
    (m: string, key: string) =>
      if key == "version" then Ok(version)
      else if key == "name" then Ok(ToText(name))
      else Ok(m)
  }

  /** The owner and repository `extend.js` gets: the last two `/`-separated parts of the URL. */
  datatype UrlParts = UrlParts(owner: string, repo: string)

  /**
   * `url.split('/')`, then `parts[parts.length - 2]` and `parts[parts.length - 1]`: with a
   * single part the owner is `undefined`, which the replacement turns into the text
   * `undefined`.
   */
  function OwnerAndRepo(url: string): (r: UrlParts)
    ensures r.repo == Split(url, '/')[|Split(url, '/')| - 1]
  {
    var parts := Split(url, '/');
    UrlParts(if |parts| >= 2 then parts[|parts| - 2] else "undefined", parts[|parts| - 1])
  }

  /** A URL without `/` is all repository, and the owner reads `undefined`. */
  lemma OwnerAndRepoNoSlash(url: string)
    requires '/' !in url
    ensures OwnerAndRepo(url) == UrlParts("undefined", url)
  {
    assert Split(url, '/') == [url];
  }

  /**
   * The `extend.js` callback. Every call first derives the URL from package.json, so a
   * `repository` whose `url` is not a string makes every placeholder throw.
   */
  function ExtendReplacer(version: string, name: Value, repository: Value): (r: Replacer)
    ensures forall m, key :: r(m, key).Err? <==> GitHub.PackageUrl(repository).Err?
    ensures forall m, key :: GitHub.PackageUrl(repository).Err? ==> r(m, key) == Err(GitHub.PackageUrl(repository).error)
    ensures forall m, key :: r(m, key).Ok? && key !in {"version", "name", "ghown", "ghrep"} ==> r(m, key) == Ok(m)
  {
    (m: string, key: string) =>
      match GitHub.PackageUrl(repository)
      case Err(x) => Err(x)
      case Ok(url) =>
        var parts := OwnerAndRepo(url);
        if key == "version" then Ok(version)
        else if key == "name" then Ok(ToText(name))
        else if key == "ghown" then Ok(parts.owner)
        else if key == "ghrep" then Ok(parts.repo)
        else Ok(m)
  }

  /** A URL that is a `/`-join of parts hands its last two parts over as owner and repository. */
  lemma OwnerAndRepoOfJoin(parts: seq<string>)
    requires |parts| >= 2 && forall i :: 0 <= i < |parts| ==> '/' !in parts[i]
    ensures OwnerAndRepo(Join(parts, "/")) == UrlParts(parts[|parts| - 2], parts[|parts| - 1])
  {
    SplitJoin(parts, '/');
  }

  /** package.json's `git+<url>.git` form comes back as `<url>`. */
  lemma PackageUrlGitPlus(plain: string)
    ensures GitHub.PackageUrl(Obj([("url", Str("git+" + plain + ".git"))])) == Ok(plain)
  {
    var url := "git+" + plain + ".git";
    assert Get(Obj([("url", Str(url))]), "url") == Ok(Str(url));
    assert StartsWith(url, "git+") && url[4..] == plain + ".git";
    assert ReplacePrefix(url, "git+", "") == plain + ".git";
    assert EndsWith(plain + ".git", ".git") && (plain + ".git")[..|plain|] == plain;
  }

  /** Joining one more part adds a separator and the part at the end. */
  lemma {:induction false} JoinSnoc(parts: seq<string>, last: string, sep: string)
    requires |parts| >= 1
    ensures Join(parts + [last], sep) == Join(parts, sep) + sep + last
  {
    if |parts| == 1 {
      assert parts + [last] == [parts[0], last];
    } else {
      assert (parts + [last])[1..] == parts[1..] + [last];
      JoinSnoc(parts[1..], last, sep);
    }
  }

  /** Whatever comes before them, the last two `/`-separated parts are the owner and the repository. */
  lemma OwnerAndRepoAtEnd(base: string, owner: string, repo: string)
    requires '/' !in owner && '/' !in repo
    ensures OwnerAndRepo(base + "/" + owner + "/" + repo) == UrlParts(owner, repo)
  {
    var front := Split(base, '/');
    JoinSplit(base, '/');
    JoinSnoc(front, owner, "/");
    JoinSnoc(front + [owner], repo, "/");
    var parts := front + [owner] + [repo];
    assert forall i :: 0 <= i < |parts| ==> '/' !in parts[i];
    OwnerAndRepoOfJoin(parts);
  }

  /**
   * The usual `git+https://github.com/owner/repo.git`, or any other `git+<base>/owner/repo.git`,
   * fills `ghown` and `ghrep` with owner and name.
   */
  lemma ExtendGitHubUrl(version: string, name: Value, base: string, owner: string, repo: string, m: string)
    requires '/' !in owner && '/' !in repo
    ensures var repository := Obj([("url", Str("git+" + (base + "/" + owner + "/" + repo) + ".git"))]);
      ExtendReplacer(version, name, repository)(m, "ghown") == Ok(owner) &&
      ExtendReplacer(version, name, repository)(m, "ghrep") == Ok(repo)
  {
    PackageUrlGitPlus(base + "/" + owner + "/" + repo);
    OwnerAndRepoAtEnd(base, owner, repo);
  }

  /** Without a `repository` the owner reads `undefined` and the repository is empty. */
  lemma ExtendWithoutRepository(version: string, name: Value, repository: Value, m: string)
    requires Nullish(repository)
    ensures ExtendReplacer(version, name, repository)(m, "ghown") == Ok("undefined")
    ensures ExtendReplacer(version, name, repository)(m, "ghrep") == Ok("")
  {
    OwnerAndRepoNoSlash("");
  }

  /** A `repository` whose `url` is not a string makes any placeholder at all throw. */
  lemma ExtendBadUrlThrows(version: string, name: Value, repository: Value, pre: string, key: string, rest: string)
    requires !Nullish(repository) && !Get(repository, "url").value.Str?
    requires '[' !in pre && PlainKey(key)
    ensures Patch(pre + Open + key + Close + rest, ExtendReplacer(version, name, repository)).Err?
  {
    OnePlaceholder(pre, key, rest, ExtendReplacer(version, name, repository));
  }

  /** In `index.js` a `version` placeholder becomes the version and the text around it is kept. */
  lemma IndexVersion(version: string, name: Value, pre: string, rest: string)
    requires '[' !in pre && '[' !in rest
    ensures Patch(pre + Open + "version" + Close + rest, IndexReplacer(version, name)) == Ok(pre + version + rest)
  {
    var f := IndexReplacer(version, name);
    assert PlainKey("version");
    assert f(Open + "version" + Close, "version") == Ok(version);
    SinglePlaceholder(pre, "version", rest, f, version);
  }

  /** Keys other than `version` and `name` are left in `index.js` as they were. */
  lemma IndexOtherKey(version: string, name: Value, pre: string, key: string, rest: string)
    requires '[' !in pre && '[' !in rest && PlainKey(key) && key != "version" && key != "name"
    ensures Patch(pre + Open + key + Close + rest, IndexReplacer(version, name)) == Ok(pre + Open + key + Close + rest)
  {
    var f := IndexReplacer(version, name);
    assert f(Open + key + Close, key) == Ok(Open + key + Close);
    SingleVerbatim(pre, key, rest, f);
  }
}
