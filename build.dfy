/**
 * `scripts/actions/build.js`: after compiling, it rewrites the placeholders of `index.js`
 * and `extend.js`, each only when the file exists. The version is package.json's plus the
 * `BUILD_SOURCE` environment variable; the owner and repository come from `getRepoInfo()`.
 * Cleaning the output directory, running `tsc`, the console lines and the file reads and
 * writes are not modelled; the file contents, package.json's fields, the variable and what
 * `git` reports are parameters.
 */
module BuildScript {
  import opened Wrappers
  import opened JsStrings
  import opened JsValues
  import opened Placeholders
  import GitHub

  /**
   * `version()`: `v` and the package version, then `|` and `BUILD_SOURCE` when that is set
   * and not empty. As in the patch script, the `try` and `?? 'v0.0.1'` never take effect.
   */
  function Version(pkgVersion: Value, source: Option<string>): (r: string)
    ensures StartsWith(r, "v" + ToText(pkgVersion))
    ensures source.None? || source == Some("") ==> r == "v" + ToText(pkgVersion)
  {
    "v" + ToText(pkgVersion) + (if source.Some? && source.value != "" then "|" + source.value else "")
  }

  /** Splitting the version at `|` gives the version proper and the source, when there is one. */
  lemma VersionFields(pkgVersion: Value, source: Option<string>)
    requires '|' !in ToText(pkgVersion)
    requires source.Some? ==> '|' !in source.value
    ensures Split(Version(pkgVersion, source), '|') ==
      ["v" + ToText(pkgVersion)] + (if source.Some? && source.value != "" then [source.value] else [])
  {
    var head := "v" + ToText(pkgVersion);
    assert '|' !in head by {
      assert forall i :: 1 <= i < |head| ==> head[i] == ToText(pkgVersion)[i - 1];
    }
    if source.Some? && source.value != "" {
      var parts := [head, source.value];
      assert parts[1..] == [source.value];
      assert Join(parts, "|") == head + "|" + source.value;
      assert Version(pkgVersion, source) == Join(parts, "|");
      SplitJoin(parts, '|');
    } else {
      SplitJoin([head], '|');
    }
  }

  /**
   * The `patchFile` callback. It asks `getRepoInfo()` before looking at the key, so when the
   * repository cannot be read every placeholder throws, even one it would have kept.
   */
  function Replacer(version: string, name: Value, info: Result<GitHub.RepoInfo, Thrown>): (r: Placeholders.Replacer)
    ensures forall m, key :: r(m, key).Err? <==> info.Err?
    ensures forall m, key :: info.Err? ==> r(m, key) == Err(info.error)
    ensures forall m :: info.Ok? ==> r(m, "ghown") == Ok(info.value.owner) && r(m, "ghrep") == Ok(info.value.repo)
    ensures forall m, key :: info.Ok? && key !in {"version", "name", "ghown", "ghrep"} ==> r(m, key) == Ok(m)
  {
    (m: string, key: string) =>
      match info
      case Err(x) => Err(x)
      case Ok(i) =>
        if key == "version" then Ok(version)
        else if key == "name" then Ok(ToText(name))
        else if key == "ghown" then Ok(i.owner)
        else if key == "ghrep" then Ok(i.repo)
        else Ok(m)
  }

  /** `patchFile` on a file that may be missing: a missing file is skipped. */
  function PatchIfPresent(content: Option<string>, f: Replacer): (r: Result<Option<string>, Thrown>)
    ensures content.None? ==> r == Ok(None)
    ensures content.Some? && r.Ok? ==> r.value.Some?
    ensures content.Some? ==> (r.Ok? <==> Patch(content.value, f).Ok?)
    ensures content.Some? && r.Ok? ==> r.value == Some(Patch(content.value, f).value)
    ensures content.Some? && r.Err? ==> r.error == Patch(content.value, f).error
  {
    match content
    case None => Ok(None)
    case Some(text) =>
      match Patch(text, f)
      case Err(x) => Err(x)
      case Ok(patched) => Ok(Some(patched))
  }

  /** The build's two patches, `index.js` first; the first throw ends the build. */
  function PatchOutput(index: Option<string>, extend: Option<string>, f: Replacer): (r: Result<(Option<string>, Option<string>), Thrown>)
    ensures r.Ok? ==> (r.value.0.None? <==> index.None?) && (r.value.1.None? <==> extend.None?)
    ensures PatchIfPresent(index, f).Err? ==> r == Err(PatchIfPresent(index, f).error)
    ensures PatchIfPresent(index, f).Ok? && PatchIfPresent(extend, f).Err? ==> r == Err(PatchIfPresent(extend, f).error)
    ensures r.Ok? ==> r.value == (PatchIfPresent(index, f).value, PatchIfPresent(extend, f).value)
  {
    match PatchIfPresent(index, f)
    case Err(x) => Err(x)
    case Ok(i) =>
      match PatchIfPresent(extend, f)
      case Err(x) => Err(x)
      case Ok(e) => Ok((i, e))
  }

  /** With the repository known, `version` becomes the build's version and `name` the package name. */
  lemma VersionAndNamePlaceholders(version: string, name: Value, info: GitHub.RepoInfo, pre: string, rest: string)
    requires '[' !in pre && '[' !in rest
    ensures Patch(pre + Open + "version" + Close + rest, Replacer(version, name, Ok(info))) == Ok(pre + version + rest)
    ensures Patch(pre + Open + "name" + Close + rest, Replacer(version, name, Ok(info))) == Ok(pre + ToText(name) + rest)
  {
    var f := Replacer(version, name, Ok(info));
    assert PlainKey("version") && PlainKey("name");
    assert f(Open + "version" + Close, "version") == Ok(version);
    assert f(Open + "name" + Close, "name") == Ok(ToText(name));
    SinglePlaceholder(pre, "version", rest, f, version);
    SinglePlaceholder(pre, "name", rest, f, ToText(name));
  }

  /** With the repository known, `ghown` and `ghrep` become its owner and name. */
  lemma OwnerPlaceholder(version: string, name: Value, info: GitHub.RepoInfo, pre: string, rest: string)
    requires '[' !in pre && '[' !in rest
    ensures Patch(pre + Open + "ghown" + Close + rest, Replacer(version, name, Ok(info))) == Ok(pre + info.owner + rest)
    ensures Patch(pre + Open + "ghrep" + Close + rest, Replacer(version, name, Ok(info))) == Ok(pre + info.repo + rest)
  {
    var f := Replacer(version, name, Ok(info));
    assert PlainKey("ghown") && PlainKey("ghrep");
    assert f(Open + "ghown" + Close, "ghown") == Ok(info.owner);
    assert f(Open + "ghrep" + Close, "ghrep") == Ok(info.repo);
    SinglePlaceholder(pre, "ghown", rest, f, info.owner);
    SinglePlaceholder(pre, "ghrep", rest, f, info.repo);
  }

  /** An unknown key stays as it was once the repository is known. */
  lemma UnknownKeyKept(version: string, name: Value, info: GitHub.RepoInfo, pre: string, key: string, rest: string)
    requires '[' !in pre && '[' !in rest && PlainKey(key)
    requires key != "version" && key != "name" && key != "ghown" && key != "ghrep"
    ensures Patch(pre + Open + key + Close + rest, Replacer(version, name, Ok(info))) == Ok(pre + Open + key + Close + rest)
  {
    var f := Replacer(version, name, Ok(info));
    assert f(Open + key + Close, key) == Ok(Open + key + Close);
    SingleVerbatim(pre, key, rest, f);
  }

  /** When the repository cannot be read, a file holding any placeholder fails to patch. */
  lemma RepoFailureThrows(version: string, name: Value, x: Thrown, pre: string, key: string, rest: string)
    requires '[' !in pre && PlainKey(key)
    ensures Patch(pre + Open + key + Close + rest, Replacer(version, name, Err(x))) == Err(x)
  {
    OnePlaceholder(pre, key, rest, Replacer(version, name, Err(x)));
  }

  /** A file without placeholders is patched whatever the repository. */
  lemma PlainFileKept(version: string, name: Value, info: Result<GitHub.RepoInfo, Thrown>, text: string)
    requires '[' !in text
    ensures PatchIfPresent(Some(text), Replacer(version, name, info)) == Ok(Some(text))
  {
    NoBracketUnchanged(text, Replacer(version, name, info));
  }
}
