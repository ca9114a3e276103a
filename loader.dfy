/**
 * `Loader` (src/utils/loader.ts): resolving what a module exports, walking a directory tree
 * for modules, and probing plugin folders for their entry file.
 *
 * The file system is a tree of `Node`s; a `Path` is a list of segments from its root.
 * `import()` is an oracle from a path to the module value (or to what it throws); the runtime
 * flags (running under tsx, running as ESM) are a `Flags` value.
 */
module Loader {
  import opened Wrappers
  import opened JsStrings
  import opened JsValues
  import Util
  import opened Lists

  type Path = seq<string>

  datatype Node = File(name: string) | Dir(name: string, entries: seq<Node>)

  datatype Flags = Flags(tsx: bool, esm: bool)

  // ---------------------------------------------------------------- resolveFile

  /**
   * `Loader.resolveFile`. For `.ts`/`.mjs`: a truthy `default`, else the first export.
   * For `.js`/`.cjs`: a class unchanged, else a truthy `default`, else the sole export when
   * there is exactly one, else the whole module. Other extensions: the module unchanged.
   */
  function ResolveFile(file: Value, fileType: string): (r: Result<Value, Thrown>)
    ensures fileType !in {".ts", ".mjs", ".js", ".cjs"} ==> r == Ok(file)
    ensures fileType in {".ts", ".mjs"} ==> (r.Err? <==> Nullish(file))
    ensures fileType in {".js", ".cjs"} && Util.IsClass(file) ==> r == Ok(file)
    ensures fileType in {".js", ".cjs"} && !Util.IsClass(file) ==> (r.Err? <==> Nullish(file))
    ensures r.Ok? ==>
      || r.value == file
      || r.value == Undefined
      || (Get(file, "default").Ok? && Truthy(Get(file, "default").value) && r.value == Get(file, "default").value)
      || (Values(file).Ok? && r.value in Values(file).value)
  {
    if fileType == ".ts" || fileType == ".mjs" then
      match Get(file, "default")
      case Err(e) => Err(e)
      case Ok(d) =>
        if Truthy(d) then Ok(d)
        else match Values(file)
          case Err(e) => Err(e)
          case Ok(vs) => Ok(First(vs))
    else if fileType == ".js" || fileType == ".cjs" then
      if Util.IsClass(file) then Ok(file)
      else match Get(file, "default")
        case Err(e) => Err(e)
        case Ok(d) =>
          if Truthy(d) then Ok(d)
          else match Values(file)
            case Err(e) => Err(e)
            case Ok(vs) => Ok(if |vs| == 1 then vs[0] else file)
    else Ok(file)
  }

  /** For `.ts`, the current resolver and the older one in `Util` agree, and `.mjs` is treated alike. */
  lemma ResolversAgreeOnTs(file: Value)
    ensures ResolveFile(file, ".ts") == Util.ResolveFile(file, ".ts") == ResolveFile(file, ".mjs")
  {
  }

  /**
   * For a `.js` module that is not a class and has a truthy `default`, the current resolver
   * returns `default` while the older one returns the first export value.
   */
  lemma ResolversDifferOnJsDefault(file: Value)
    requires file.Obj? && !Util.IsClass(file) && Truthy(Get(file, "default").value)
    ensures ResolveFile(file, ".js") == Ok(Get(file, "default").value)
    ensures Util.ResolveFile(file, ".js") == Ok(First(Values(file).value))
  {
  }

  /**
   * For a `.js` or `.cjs` module that is not a class and has a truthy `default`, the
   * resolver returns that `default`.
   */
  lemma JsTruthyDefault(file: Value, ext: string)
    requires ext in {".js", ".cjs"} && !Util.IsClass(file)
    requires Get(file, "default").Ok? && Truthy(Get(file, "default").value)
    ensures ResolveFile(file, ext) == Ok(Get(file, "default").value)
  {
  }

  /**
   * For a `.js` or `.cjs` module that is not a class and whose `default` is falsy, the
   * resolver returns the sole export when there is exactly one and the whole module otherwise.
   */
  lemma JsFallback(file: Value, ext: string, vs: seq<Value>)
    requires ext in {".js", ".cjs"} && !Util.IsClass(file)
    requires Get(file, "default").Ok? && !Truthy(Get(file, "default").value)
    requires Values(file) == Ok(vs)
    ensures ResolveFile(file, ext) == Ok(if |vs| == 1 then vs[0] else file)
    ensures |vs| != 1 ==> ResolveFile(file, ext) == Ok(file)
  {
  }

  /** A module whose only export is a truthy `default` resolves to it under every extension rule. */
  lemma SoleDefaultExport(d: Value, ext: string)
    requires Truthy(d) && !Util.IsClass(Obj([("default", d)]))
    requires ext in {".ts", ".mjs", ".js", ".cjs"}
    ensures ResolveFile(Obj([("default", d)]), ext) == Ok(d)
  {
  }

  // ---------------------------------------------------------------- options and filters

  /** `LoaderOptions`: the extensions `directoryLoader` considers and the entry files a plugin folder may have. */
  datatype LoaderOptions = LoaderOptions(extensions: seq<string>, pluginEntries: seq<string>)

  const Extensions: seq<string> := [".js", ".mjs", ".cjs", ".ts"]

  const PluginEntries: seq<string> := [
    "index.js", "index.ts", "index.mjs", "index.cjs",
    "register.mjs", "register.cjs", "register.js", "register.ts",
    "dist/index.js", "dist/register.js", "dist/esm/index.js", "dist/cjs/register.js"
  ]

  /** The loader's fixed options. */
  const DefaultOptions := LoaderOptions(Extensions, PluginEntries)

  predicate ExtensionAllowed(flags: Flags, ext: string) {
    if ext == ".ts" then flags.tsx
    else if ext == ".mjs" then flags.esm
    else if ext == ".cjs" then !flags.esm
    else true
  }

  predicate EntryAllowed(flags: Flags, entry: string) {
    if EndsWith(entry, ".ts") then flags.tsx
    else if EndsWith(entry, ".mjs") then flags.esm
    else if EndsWith(entry, ".cjs") then !flags.esm
    else true
  }

  /** `getValidExtensions`: `.js` always, `.mjs` only under ESM, `.cjs` only otherwise, `.ts` only under tsx. */
  function ValidExtensions(options: LoaderOptions, flags: Flags): seq<string> {
    Filter(options.extensions, e => ExtensionAllowed(flags, e))
  }

  /** `.js` always, `.mjs` only under ESM, `.cjs` only outside it, `.ts` only under tsx, in that order. */
  lemma ValidExtensionsByRuntime(flags: Flags)
    ensures ValidExtensions(DefaultOptions, flags) == [".js"] + (if flags.esm then [".mjs"] else [".cjs"]) + (if flags.tsx then [".ts"] else [])
  {
    var p := e => ExtensionAllowed(flags, e);
    assert Extensions[1..] == [".mjs", ".cjs", ".ts"];
    assert Extensions[1..][1..] == [".cjs", ".ts"];
    assert Extensions[1..][1..][1..] == [".ts"];
  }

  /** `getValidPluginEntries`: the entries of the list the runtime rule keeps, keyed by their ending. */
  function ValidPluginEntries(options: LoaderOptions, flags: Flags): seq<string> {
    Filter(options.pluginEntries, e => EntryAllowed(flags, e))
  }


  /** `index.js` and `register.js` end in `.js`, which every runtime accepts. */
  lemma RootJsEntryRule(flags: Flags, k: nat)
    requires k in {0, 6}
    ensures k < |PluginEntries| && EntryAllowed(flags, PluginEntries[k])
  {
    if k == 0 {
      assert PluginEntries[0] == "index.js";
      assert "index.js"[5..] == ".js";
      assert !EndsWith("index.js", ".ts");
      assert !EndsWith("index.js", ".mjs");
      assert !EndsWith("index.js", ".cjs");
    } else {
      assert PluginEntries[6] == "register.js";
      assert "register.js"[8..] == ".js";
      assert !EndsWith("register.js", ".ts");
      assert !EndsWith("register.js", ".mjs");
      assert !EndsWith("register.js", ".cjs");
    }
  }

  /** The `dist/` entries end in `.js`, which every runtime accepts. */
  lemma DistJsEntryRule(flags: Flags, k: nat)
    requires k in {8, 9, 10, 11}
    ensures k < |PluginEntries| && EntryAllowed(flags, PluginEntries[k])
  {
    if k == 8 {
      assert PluginEntries[8] == "dist/index.js";
      assert "dist/index.js"[10..] == ".js";
      assert !EndsWith("dist/index.js", ".ts");
      assert !EndsWith("dist/index.js", ".mjs");
      assert !EndsWith("dist/index.js", ".cjs");
    } else if k == 9 {
      assert PluginEntries[9] == "dist/register.js";
      assert "dist/register.js"[13..] == ".js";
      assert !EndsWith("dist/register.js", ".ts");
      assert !EndsWith("dist/register.js", ".mjs");
      assert !EndsWith("dist/register.js", ".cjs");
    } else if k == 10 {
      assert PluginEntries[10] == "dist/esm/index.js";
      assert "dist/esm/index.js"[14..] == ".js";
      assert !EndsWith("dist/esm/index.js", ".ts");
      assert !EndsWith("dist/esm/index.js", ".mjs");
      assert !EndsWith("dist/esm/index.js", ".cjs");
    } else {
      assert PluginEntries[11] == "dist/cjs/register.js";
      assert "dist/cjs/register.js"[17..] == ".js";
      assert !EndsWith("dist/cjs/register.js", ".ts");
      assert !EndsWith("dist/cjs/register.js", ".mjs");
      assert !EndsWith("dist/cjs/register.js", ".cjs");
    }
  }

  /** `index.ts` and `register.ts` end in `.ts`, accepted only under tsx. */
  lemma TsEntryRule(flags: Flags, k: nat)
    requires k in {1, 7}
    ensures k < |PluginEntries| && EntryAllowed(flags, PluginEntries[k]) == flags.tsx
  {
    if k == 1 {
      assert PluginEntries[1] == "index.ts";
      assert "index.ts"[5..] == ".ts";
    } else {
      assert PluginEntries[7] == "register.ts";
      assert "register.ts"[8..] == ".ts";
    }
  }

  /** The `.mjs` entries are accepted only under ESM. */
  lemma MjsEntryRule(flags: Flags, k: nat)
    requires k in {2, 4}
    ensures k < |PluginEntries| && EntryAllowed(flags, PluginEntries[k]) == flags.esm
  {
    if k == 2 {
      assert PluginEntries[2] == "index.mjs";
      assert "index.mjs"[5..] == ".mjs";
      assert !EndsWith("index.mjs", ".ts");
    } else {
      assert PluginEntries[4] == "register.mjs";
      assert "register.mjs"[8..] == ".mjs";
      assert !EndsWith("register.mjs", ".ts");
    }
  }

  /** The `.cjs` entries are accepted only outside ESM. */
  lemma CjsEntryRule(flags: Flags, k: nat)
    requires k in {3, 5}
    ensures k < |PluginEntries| && EntryAllowed(flags, PluginEntries[k]) == !flags.esm
  {
    if k == 3 {
      assert PluginEntries[3] == "index.cjs";
      assert "index.cjs"[5..] == ".cjs";
      assert !EndsWith("index.cjs", ".ts");
      assert !EndsWith("index.cjs", ".mjs");
    } else {
      assert PluginEntries[5] == "register.cjs";
      assert "register.cjs"[8..] == ".cjs";
      assert !EndsWith("register.cjs", ".ts");
      assert !EndsWith("register.cjs", ".mjs");
    }
  }

  /** An entry is probed exactly when it is listed and the runtime rule accepts its ending. */
  lemma ProbedIffAllowed(options: LoaderOptions, flags: Flags, e: string)
    ensures e in ValidPluginEntries(options, flags) <==> e in options.pluginEntries && EntryAllowed(flags, e)
  {
    FilterMembers(options.pluginEntries, e => EntryAllowed(flags, e), e);
  }

  /** `index.js` and `register.js` are probed whatever the runtime. */
  lemma RootJsEntriesProbed(flags: Flags, k: nat)
    requires k in {0, 6}
    ensures k < |PluginEntries| && (PluginEntries[k] in ValidPluginEntries(DefaultOptions, flags) <==> true)
  {
    RootJsEntryRule(flags, k);
    ProbedIffAllowed(DefaultOptions, flags, PluginEntries[k]);
  }

  /** The `dist/` entries are probed whatever the runtime. */
  lemma DistEntriesProbed(flags: Flags, k: nat)
    requires k in {8, 9, 10, 11}
    ensures k < |PluginEntries| && (PluginEntries[k] in ValidPluginEntries(DefaultOptions, flags) <==> true)
  {
    DistJsEntryRule(flags, k);
    ProbedIffAllowed(DefaultOptions, flags, PluginEntries[k]);
  }

  /** `index.ts` and `register.ts` are probed exactly under tsx. */
  lemma TsEntriesProbed(flags: Flags, k: nat)
    requires k in {1, 7}
    ensures k < |PluginEntries| && (PluginEntries[k] in ValidPluginEntries(DefaultOptions, flags) <==> flags.tsx)
  {
    TsEntryRule(flags, k);
    ProbedIffAllowed(DefaultOptions, flags, PluginEntries[k]);
  }

  /** The `.mjs` entries are probed exactly under ESM. */
  lemma MjsEntriesProbed(flags: Flags, k: nat)
    requires k in {2, 4}
    ensures k < |PluginEntries| && (PluginEntries[k] in ValidPluginEntries(DefaultOptions, flags) <==> flags.esm)
  {
    MjsEntryRule(flags, k);
    ProbedIffAllowed(DefaultOptions, flags, PluginEntries[k]);
  }

  /** The `.cjs` entries are probed exactly outside ESM. */
  lemma CjsEntriesProbed(flags: Flags, k: nat)
    requires k in {3, 5}
    ensures k < |PluginEntries| && (PluginEntries[k] in ValidPluginEntries(DefaultOptions, flags) <==> !flags.esm)
  {
    CjsEntryRule(flags, k);
    ProbedIffAllowed(DefaultOptions, flags, PluginEntries[k]);
  }

  /** Whatever the flags, the root `index.js` is the first entry probed. */
  lemma IndexJsFirst(flags: Flags)
    ensures var es := ValidPluginEntries(DefaultOptions, flags); |es| > 0 && es[0] == "index.js"
  {
    RootJsEntryRule(flags, 0);
    assert PluginEntries == [PluginEntries[0]] + PluginEntries[1..];
    FilterAppend([PluginEntries[0]], PluginEntries[1..], e => EntryAllowed(flags, e));
  }

  // ---------------------------------------------------------------- paths and the file tree

  /** `path.extname`: from the last `.`, unless there is none, it is the first character, or the name is `..`. */
  function ExtName(name: string): (ext: string)
    ensures ext == "" || (ext[0] == '.' && EndsWith(name, ext) && '.' !in ext[1..] && |ext| < |name|)
  {
    if name == ".." then ""
    else match LastDot(name)
      case None => ""
      case Some(i) => if i == 0 then "" else name[i..]
  }

  function LastDot(s: string): (r: Option<nat>)
    ensures r.Some? ==> r.value < |s| && s[r.value] == '.' && '.' !in s[r.value + 1..]
    ensures r.None? ==> '.' !in s
  {
    if |s| == 0 then None
    else if s[|s| - 1] == '.' then Some(|s| - 1)
    else
      var r := LastDot(s[..|s| - 1]);
      assert s == s[..|s| - 1] + [s[|s| - 1]];
      r
  }

  /** `path.join(base, rel)` for a relative `rel` of `/`-separated segments. */
  function PathJoin(base: Path, rel: string): Path {
    base + Split(rel, '/')
  }

  /** The path segments of a `/`-separated path, without empty and `.` segments. */
  function ParsePath(s: string): (p: Path)
    ensures forall i :: 0 <= i < |p| ==> p[i] != "" && p[i] != "."
  {
    Filter(Split(s, '/'), (seg: string) => seg != "" && seg != ".")
  }

  function NodeName(n: Node): string {
    match n
    case File(name) => name
    case Dir(name, _) => name
  }

  /** The first entry of a directory listing named `name`. */
  function Child(entries: seq<Node>, name: string): (r: Option<Node>)
    ensures r.Some? ==> r.value in entries && NodeName(r.value) == name
  {
    if |entries| == 0 then None
    else if NodeName(entries[0]) == name then Some(entries[0])
    else Child(entries[1..], name)
  }

  /** The node at `path` below `node`, if there is one. */
  function Find(node: Node, path: Path): Option<Node>
    decreases |path|
  {
    if |path| == 0 then Some(node)
    else match node
      case File(_) => None
      case Dir(_, entries) =>
        match Child(entries, path[0])
        case None => None
        case Some(c) => Find(c, path[1..])
  }

  /** `fs.existsSync(path)`. */
  predicate Exists(root: Node, path: Path) {
    Find(root, path).Some?
  }

  /** `fs.existsSync(path) && fs.statSync(path).isDirectory()`. */
  predicate IsDirectory(root: Node, path: Path) {
    Find(root, path).Some? && Find(root, path).value.Dir?
  }

  function Size(n: Node): (r: nat)
    ensures r >= 1
  {
    match n
    case File(_) => 1
    case Dir(_, entries) => 1 + SizeAll(entries)
  }

  function SizeAll(entries: seq<Node>): (r: nat)
    ensures forall i :: 0 <= i < |entries| ==> Size(entries[i]) <= r
  {
    if |entries| == 0 then 0
    else
      assert forall i :: 1 <= i < |entries| ==> entries[i] == entries[1..][i - 1];
      Size(entries[0]) + SizeAll(entries[1..])
  }

  /** A directory listing: entry names are distinct and contain no `/`. */
  predicate WellFormed(n: Node)
    decreases Size(n), 0
  {
    match n
    case File(name) => '/' !in name
    case Dir(name, entries) => '/' !in name && WellFormedAll(entries)
  }

  predicate WellFormedAll(entries: seq<Node>)
    decreases SizeAll(entries), 1
  {
    && (forall i, j :: 0 <= i < j < |entries| ==> NodeName(entries[i]) != NodeName(entries[j]))
    && (|entries| == 0 || (WellFormed(entries[0]) && WellFormedAll(entries[1..])))
  }

  // ---------------------------------------------------------------- directoryLoader

  /** `?? []` followed by `.flat()`: nothing for a nullish value, the items of an array, else the value. */
  function Flatten(v: Value): (r: seq<Value>)
    ensures Nullish(v) ==> r == []
    ensures !Nullish(v) && !v.Arr? ==> r == [v]
  {
    if Nullish(v) then [] else if v.Arr? then v.items else [v]
  }

  /** A file `directoryLoader` imports: its extension is one of the valid extensions. */
  predicate Importable(exts: seq<string>, name: string) {
    ExtName(name) in exts
  }

  /** The names in a directory listing. */
  function Names(entries: seq<Node>): (r: seq<string>)
    ensures |r| == |entries| && forall i :: 0 <= i < |entries| ==> r[i] == NodeName(entries[i])
  {
    seq(|entries|, i requires 0 <= i < |entries| => NodeName(entries[i]))
  }

  /** The contribution of one directory entry found under `dir`. */
  function LoadEntry(dir: Path, e: Node, imp: Path -> Result<Value, Thrown>, exts: seq<string>): Result<seq<Value>, Thrown>
    decreases Size(e), 0
  {
    match e
    case Dir(name, entries) => LoadEntries(dir + [name], entries, imp, exts)
    case File(name) =>
      var ext := ExtName(name);
      if !Importable(exts, name) then Ok([])
      else match imp(dir + [name])
        case Err(err) => Err(err)
        case Ok(m) =>
          match ResolveFile(m, ext)
          case Err(err) => Err(err)
          case Ok(v) => Ok(Flatten(v))
  }

  /** The entries' contributions, one level flattened, in listing order; the first failure in order wins. */
  function LoadEntries(dir: Path, entries: seq<Node>, imp: Path -> Result<Value, Thrown>, exts: seq<string>): (r: Result<seq<Value>, Thrown>)
    ensures r.Ok? <==> forall i :: 0 <= i < |entries| ==> LoadEntry(dir, entries[i], imp, exts).Ok?
    ensures r.Err? ==> exists i :: (0 <= i < |entries| && LoadEntry(dir, entries[i], imp, exts) == Err(r.error) &&
                                     forall j :: 0 <= j < i ==> LoadEntry(dir, entries[j], imp, exts).Ok?)
    decreases SizeAll(entries), 1
  {
    if |entries| == 0 then Ok([])
    else
      var head := LoadEntry(dir, entries[0], imp, exts);
      var tail := LoadEntries(dir, entries[1..], imp, exts);
      Combine(head, tail)
  }

  function Combine(a: Result<seq<Value>, Thrown>, b: Result<seq<Value>, Thrown>): Result<seq<Value>, Thrown> {
    match a
    case Err(e) => Err(e)
    case Ok(x) =>
      match b
      case Err(e) => Err(e)
      case Ok(y) => Ok(x + y)
  }

  /**
   * `directoryLoader(dir)`: nothing for a path that does not exist; a file where a directory
   * is expected makes `readdirSync` throw `ENOTDIR`.
   */
  function DirectoryLoader(root: Node, dir: Path, imp: Path -> Result<Value, Thrown>, options: LoaderOptions, flags: Flags): (r: Result<seq<Value>, Thrown>)
    ensures !Exists(root, dir) ==> r == Ok([])
    ensures IsDirectory(root, dir) ==> r == LoadEntries(dir, Listing(root, dir), imp, ValidExtensions(options, flags))
    ensures Exists(root, dir) && !IsDirectory(root, dir) ==> r == Err(SystemError("ENOTDIR"))
  {
    match Find(root, dir)
    case None => Ok([])
    case Some(File(_)) => Err(SystemError("ENOTDIR"))
    case Some(Dir(_, entries)) => LoadEntries(dir, entries, imp, ValidExtensions(options, flags))
  }

  /** The paths `directoryLoader` hands to `import()`: each file with a valid extension, depth first. */
  function EntryImports(dir: Path, e: Node, exts: seq<string>): seq<Path>
    decreases Size(e), 0
  {
    match e
    case Dir(name, entries) => EntriesImports(dir + [name], entries, exts)
    case File(name) => if Importable(exts, name) then [dir + [name]] else []
  }

  function EntriesImports(dir: Path, entries: seq<Node>, exts: seq<string>): seq<Path>
    decreases SizeAll(entries), 1
  {
    if |entries| == 0 then []
    else EntryImports(dir, entries[0], exts) + EntriesImports(dir, entries[1..], exts)
  }


  /** Listing order is kept: the entries of `a` contribute before those of `b`. */
  lemma {:induction false} LoadEntriesAppend(dir: Path, a: seq<Node>, b: seq<Node>, imp: Path -> Result<Value, Thrown>, exts: seq<string>)
    ensures LoadEntries(dir, a + b, imp, exts) == Combine(LoadEntries(dir, a, imp, exts), LoadEntries(dir, b, imp, exts))
    ensures EntriesImports(dir, a + b, exts) == EntriesImports(dir, a, exts) + EntriesImports(dir, b, exts)
    decreases |a|
  {
    if |a| == 0 {
      assert a + b == b;
      var rb := LoadEntries(dir, b, imp, exts);
      if rb.Ok? {
        assert [] + rb.value == rb.value;
      }
    } else {
      assert (a + b)[0] == a[0];
      assert (a + b)[1..] == a[1..] + b;
      LoadEntriesAppend(dir, a[1..], b, imp, exts);
      CombineAssoc(LoadEntry(dir, a[0], imp, exts), LoadEntries(dir, a[1..], imp, exts), LoadEntries(dir, b, imp, exts));
    }
  }

  lemma CombineAssoc(x: Result<seq<Value>, Thrown>, y: Result<seq<Value>, Thrown>, z: Result<seq<Value>, Thrown>)
    ensures Combine(x, Combine(y, z)) == Combine(Combine(x, y), z)
  {
    if x.Ok? && y.Ok? && z.Ok? {
      assert x.value + (y.value + z.value) == (x.value + y.value) + z.value;
    }
  }

  /** Every imported path lies strictly below `dir`, names a file, and carries a valid extension. */
  lemma {:induction false} ImportsBelow(dir: Path, e: Node, exts: seq<string>, p: Path)
    requires p in EntryImports(dir, e, exts)
    ensures |p| > |dir| && p[..|dir|] == dir && p[|dir|] == NodeName(e)
    ensures Importable(exts, p[|p| - 1])
    decreases Size(e), 0
  {
    match e
    case File(name) =>
      assert p == dir + [name];
    case Dir(name, entries) =>
      ImportsBelowAll(dir + [name], entries, exts, p);
      assert p[..|dir| + 1] == dir + [name];
      assert p[..|dir|] == (p[..|dir| + 1])[..|dir|];
      assert p[|dir|] == (p[..|dir| + 1])[|dir|];
  }

  lemma {:induction false} ImportsBelowAll(dir: Path, entries: seq<Node>, exts: seq<string>, p: Path)
    requires p in EntriesImports(dir, entries, exts)
    ensures |p| > |dir| && p[..|dir|] == dir
    ensures p[|dir|] in Names(entries)
    ensures Importable(exts, p[|p| - 1])
    decreases SizeAll(entries), 1
  {
    var h := EntryImports(dir, entries[0], exts);
    var t := EntriesImports(dir, entries[1..], exts);
    assert p in h + t;
    var names := Names(entries);
    if p in h {
      ImportsBelow(dir, entries[0], exts, p);
      assert names[0] == NodeName(entries[0]);
    } else {
      assert p in t;
      assert SizeAll(entries[1..]) < SizeAll(entries);
      ImportsBelowAll(dir, entries[1..], exts, p);
      assert Names(entries[1..]) == names[1..];
    }
  }

  /** No duplicates. */
  predicate Distinct<T(==)>(xs: seq<T>) {
    forall i, j :: 0 <= i < j < |xs| ==> xs[i] != xs[j]
  }

  /** In a well-formed tree, `directoryLoader` never imports the same file twice. */
  lemma {:induction false} ImportsDistinct(dir: Path, e: Node, exts: seq<string>)
    requires WellFormed(e)
    ensures Distinct(EntryImports(dir, e, exts))
    decreases Size(e), 0
  {
    match e
    case File(_) =>
    case Dir(name, entries) => ImportsDistinctAll(dir + [name], entries, exts);
  }

  lemma {:induction false} ImportsDistinctAll(dir: Path, entries: seq<Node>, exts: seq<string>)
    requires WellFormedAll(entries)
    ensures Distinct(EntriesImports(dir, entries, exts))
    decreases SizeAll(entries), 1
  {
    if |entries| > 0 {
      var h := EntryImports(dir, entries[0], exts);
      var t := EntriesImports(dir, entries[1..], exts);
      ImportsDistinct(dir, entries[0], exts);
      ImportsDistinctAll(dir, entries[1..], exts);
      forall x, y | x in h && y in t ensures x != y {
        ImportsBelow(dir, entries[0], exts, x);
        ImportsBelowAll(dir, entries[1..], exts, y);
        var i :| 0 <= i < |entries[1..]| && y[|dir|] == Names(entries[1..])[i];
        assert NodeName(entries[0]) != NodeName(entries[i + 1]);
      }
      var all := h + t;
      forall i, j | 0 <= i < j < |all| ensures all[i] != all[j] {
        if j < |h| {
        } else if i >= |h| {
          assert all[i] == t[i - |h|] && all[j] == t[j - |h|];
        } else {
          assert all[i] in h && all[j] in t;
        }
      }
    }
  }

  /** A value resolves to exactly one element of the result: defined, and not an array. */
  predicate Scalar(v: Value) {
    !Nullish(v) && !v.Arr?
  }

  /** The resolved value of the module at `p`, whose name carries the extension `ExtName`. */
  predicate ImportsCleanly(imp: Path -> Result<Value, Thrown>, p: Path) {
    |p| > 0 && imp(p).Ok? && ResolveFile(imp(p).value, ExtName(p[|p| - 1])).Ok?
    && Scalar(ResolveFile(imp(p).value, ExtName(p[|p| - 1])).value)
  }

  function Resolved(imp: Path -> Result<Value, Thrown>, p: Path): Value
    requires ImportsCleanly(imp, p)
  {
    ResolveFile(imp(p).value, ExtName(p[|p| - 1])).value
  }

  /** The resolved values of the modules at `ps`, in order. */
  function ResolvedAll(imp: Path -> Result<Value, Thrown>, ps: seq<Path>): (vs: seq<Value>)
    requires forall p :: p in ps ==> ImportsCleanly(imp, p)
    ensures |vs| == |ps|
  {
    if |ps| == 0 then [] else [Resolved(imp, ps[0])] + ResolvedAll(imp, ps[1..])
  }

  lemma {:induction false} ResolvedAllAppend(imp: Path -> Result<Value, Thrown>, xs: seq<Path>, ys: seq<Path>)
    requires forall p :: p in xs + ys ==> ImportsCleanly(imp, p)
    ensures ResolvedAll(imp, xs + ys) == ResolvedAll(imp, xs) + ResolvedAll(imp, ys)
  {
    if |xs| == 0 {
      assert xs + ys == ys;
    } else {
      assert (xs + ys)[1..] == xs[1..] + ys;
      ResolvedAllAppend(imp, xs[1..], ys);
    }
  }

  /**
   * When every import succeeds and resolves to a single defined value, `directoryLoader`
   * returns exactly one value per imported file, in the order the files were found.
   */
  lemma {:induction false} OneValuePerModule(dir: Path, e: Node, imp: Path -> Result<Value, Thrown>, exts: seq<string>)
    requires forall p :: p in EntryImports(dir, e, exts) ==> ImportsCleanly(imp, p)
    ensures LoadEntry(dir, e, imp, exts) == Ok(ResolvedAll(imp, EntryImports(dir, e, exts)))
    decreases Size(e), 0
  {
    match e
    case File(name) =>
      if Importable(exts, name) {
        var p := dir + [name];
        assert EntryImports(dir, e, exts) == [p];
        assert ImportsCleanly(imp, p);
        assert p[|p| - 1] == name;
        assert ResolvedAll(imp, [p]) == [Resolved(imp, p)];
      }
    case Dir(name, entries) =>
      assert SizeAll(entries) < Size(e);
      OneValuePerModuleAll(dir + [name], entries, imp, exts);
  }

  lemma {:induction false} OneValuePerModuleAll(dir: Path, entries: seq<Node>, imp: Path -> Result<Value, Thrown>, exts: seq<string>)
    requires forall p :: p in EntriesImports(dir, entries, exts) ==> ImportsCleanly(imp, p)
    ensures LoadEntries(dir, entries, imp, exts) == Ok(ResolvedAll(imp, EntriesImports(dir, entries, exts)))
    decreases SizeAll(entries), 1
  {
    if |entries| > 0 {
      var h := EntryImports(dir, entries[0], exts);
      var t := EntriesImports(dir, entries[1..], exts);
      assert EntriesImports(dir, entries, exts) == h + t;
      assert SizeAll(entries[1..]) < SizeAll(entries);
      OneValuePerModule(dir, entries[0], imp, exts);
      OneValuePerModuleAll(dir, entries[1..], imp, exts);
      ResolvedAllAppend(imp, h, t);
    }
  }

  /** A subtree with no file of a valid extension loads to nothing and imports nothing. */
  lemma {:induction false} NothingToImport(dir: Path, entries: seq<Node>, imp: Path -> Result<Value, Thrown>, exts: seq<string>)
    requires EntriesImports(dir, entries, exts) == []
    ensures LoadEntries(dir, entries, imp, exts) == Ok([])
    decreases SizeAll(entries)
  {
    if |entries| > 0 {
      assert SizeAll(entries[1..]) < SizeAll(entries);
      NothingToImport(dir, entries[1..], imp, exts);
      match entries[0]
      case File(_) =>
      case Dir(name, children) =>
        assert SizeAll(children) < Size(entries[0]) <= SizeAll(entries);
        NothingToImport(dir + [name], children, imp, exts);
    }
  }

  // ---------------------------------------------------------------- importModule

  /**
   * `importModule`: the specifier handed to `import()` is the plain path for CommonJS files
   * (`.cjs`, or `.js` outside ESM) and a `file://` URL otherwise.
   */
  function ImportSpecifier(fullPath: string, flags: Flags): (spec: string)
    ensures var ext := ExtName(fullPath);
      spec == fullPath <==> (ext == ".cjs" || (!flags.esm && ext == ".js"))
  {
    var ext := ExtName(fullPath);
    if ext == ".cjs" || (!flags.esm && ext == ".js") then fullPath else "file://" + fullPath
  }

  // ---------------------------------------------------------------- loadPluginFolder

  /** The index of the first entry that exists below `base`, if any. */
  function FirstExisting(root: Node, base: Path, entries: seq<string>, from: nat): (r: Option<nat>)
    requires from <= |entries|
    ensures r.Some? ==> from <= r.value < |entries| && Exists(root, PathJoin(base, entries[r.value]))
    ensures forall j :: from <= j < |entries| && (r.None? || j < r.value) ==> !Exists(root, PathJoin(base, entries[j]))
    decreases |entries| - from
  {
    if from == |entries| then None
    else if Exists(root, PathJoin(base, entries[from])) then Some(from)
    else FirstExisting(root, base, entries, from + 1)
  }

  /**
   * The file `loadPluginFolder(dir, folder)` imports, given the valid entries: none for a
   * non-directory, else the first entry present in the folder.
   */
  function FolderProbe(root: Node, dir: Path, folder: Node, entries: seq<string>): Option<Path> {
    if !folder.Dir? then None
    else
      match FirstExisting(root, dir + [folder.name], entries, 0)
      case None => None
      case Some(k) => Some(PathJoin(dir + [folder.name], entries[k]))
  }

  /** The outcome of importing `p`, when there is one. */
  function ImportFailure(imp: Path -> Result<Value, Thrown>, p: Option<Path>): Option<Thrown> {
    if p.Some? && imp(p.value).Err? then Some(imp(p.value).error) else None
  }

  /**
   * `loadPluginFolder`: probes the valid entries in order and imports the first one that
   * exists, then stops; the import's failure, if any, is passed on.
   */
  method LoadPluginFolder(root: Node, dir: Path, folder: Node, entries: seq<string>, imp: Path -> Result<Value, Thrown>)
    returns (imported: Option<Path>, failure: Option<Thrown>)
    ensures imported == FolderProbe(root, dir, folder, entries)
    ensures failure == ImportFailure(imp, imported)
  {
    imported := None;
    failure := None;
    if !folder.Dir? {
      return;
    }
    var folderPath := dir + [folder.name];
    var i := 0;
    while i < |entries|
      invariant 0 <= i <= |entries|
      invariant imported == None && failure == None
      invariant FirstExisting(root, folderPath, entries, 0) == FirstExisting(root, folderPath, entries, i)
    {
      var fullPath := PathJoin(folderPath, entries[i]);
      if Exists(root, fullPath) {
        imported := Some(fullPath);
        var m := imp(fullPath);
        if m.Err? {
          failure := Some(m.error);
        }
        break;
      }
      i := i + 1;
    }
  }

  /** When the first valid entry exists in a plugin folder, that entry is the one loaded. */
  lemma FirstEntryWins(root: Node, dir: Path, folder: Node, entries: seq<string>)
    requires folder.Dir? && |entries| > 0 && Exists(root, PathJoin(dir + [folder.name], entries[0]))
    ensures FolderProbe(root, dir, folder, entries) == Some(PathJoin(dir + [folder.name], entries[0]))
  {
  }

  /** With the default options, a plugin folder with a root `index.js` always loads that file. */
  lemma IndexJsWins(root: Node, dir: Path, folder: Node, flags: Flags)
    requires folder.Dir? && Exists(root, PathJoin(dir + [folder.name], "index.js"))
    ensures FolderProbe(root, dir, folder, ValidPluginEntries(DefaultOptions, flags)) == Some(PathJoin(dir + [folder.name], "index.js"))
  {
    IndexJsFirst(flags);
    FirstEntryWins(root, dir, folder, ValidPluginEntries(DefaultOptions, flags));
  }

  /** Whatever `loadPluginFolder` imports exists, lies in the folder, and comes from a valid entry. */
  lemma ProbeIsValidEntry(root: Node, dir: Path, folder: Node, entries: seq<string>)
    requires FolderProbe(root, dir, folder, entries).Some?
    ensures var p := FolderProbe(root, dir, folder, entries).value;
      && folder.Dir? && Exists(root, p)
      && exists e :: e in entries && p == PathJoin(dir + [folder.name], e)
  {
    var k := FirstExisting(root, dir + [folder.name], entries, 0).value;
    assert entries[k] in entries;
  }

  /**
   * The list puts every root-level entry, `register.js` among them, before the `dist/` ones:
   * when a plugin folder has a root `register.js`, the file loaded lies directly in the
   * folder, so no `dist/` build is loaded, whatever the runtime.
   */
  lemma RegisterJsBeforeDist(root: Node, dir: Path, folder: Node, flags: Flags)
    requires folder.Dir? && Exists(root, PathJoin(dir + [folder.name], "register.js"))
    ensures var p := FolderProbe(root, dir, folder, ValidPluginEntries(DefaultOptions, flags));
      p.Some? && |p.value| == |dir| + 2
  {
    var base := dir + [folder.name];
    var entries := ValidPluginEntries(DefaultOptions, flags);
    var k := RootEntriesFirst(flags);
    assert entries[k] == "register.js";
    var r := FirstExisting(root, base, entries, 0);
    assert r.Some? && r.value <= k;
    RootEntryFlat(base, entries[r.value]);
  }

  /**
   * The valid entries open with the allowed root-level ones, `register.js` among them at `k`:
   * every entry up to `k` is one of the first seven of the list.
   */
  lemma RootEntriesFirst(flags: Flags) returns (k: nat)
    ensures var entries := ValidPluginEntries(DefaultOptions, flags);
      && k < |entries| && entries[k] == "register.js"
      && forall j :: 0 <= j <= k ==> entries[j] in PluginEntries[..7]
  {
    RootJsEntryRule(flags, 6);
    k := FilterFront(PluginEntries, 7, 6, e => EntryAllowed(flags, e));
    assert PluginEntries[6] == "register.js";
  }

  /** An element kept from the first `n` of `xs` (the `i`-th) comes, in the filtered list, after kept elements of those `n` only. */
  lemma FilterFront<T(!new)>(xs: seq<T>, n: nat, i: nat, p: T -> bool) returns (k: nat)
    requires i < n <= |xs| && p(xs[i])
    ensures k < |Filter(xs, p)| && Filter(xs, p)[k] == xs[i]
    ensures forall j :: 0 <= j <= k ==> Filter(xs, p)[j] in xs[..n]
  {
    var front := Filter(xs[..n], p);
    assert xs == xs[..n] + xs[n..];
    FilterAppend(xs[..n], xs[n..], p);
    var x := xs[i];
    assert xs[..n][i] == x;
    FilterMembers(xs[..n], p, x);
    k :| 0 <= k < |front| && front[k] == x;
    forall j | 0 <= j <= k
      ensures front[j] in xs[..n]
    {
      FilterMembers(xs[..n], p, front[j]);
    }
  }

  /** The first seven entries name files directly in the plugin folder. */
  lemma RootEntryFlat(base: Path, e: string)
    requires e in PluginEntries[..7]
    ensures Split(e, '/') == [e] && PathJoin(base, e) == base + [e]
  {
    var i :| 0 <= i < 7 && PluginEntries[..7][i] == e;
    RootEntryNoSlash(i);
  }

  lemma RootEntryNoSlash(i: nat)
    requires i < 7
    ensures '/' !in PluginEntries[i]
  {
    if i == 0 { assert PluginEntries[i] == "index.js"; }
    else if i == 1 { assert PluginEntries[i] == "index.ts"; }
    else if i == 2 { assert PluginEntries[i] == "index.mjs"; }
    else if i == 3 { assert PluginEntries[i] == "index.cjs"; }
    else if i == 4 { assert PluginEntries[i] == "register.mjs"; }
    else if i == 5 { assert PluginEntries[i] == "register.cjs"; }
    else { assert PluginEntries[i] == "register.js"; }
  }



  // ---------------------------------------------------------------- pluginFinder

  /** `new URL(s).protocol === 'file:'`: the scheme is matched without regard to case. */
  predicate IsFileUrl(s: string) {
    && |s| >= 5
    && s[0] in {'f', 'F'} && s[1] in {'i', 'I'} && s[2] in {'l', 'L'} && s[3] in {'e', 'E'}
    && s[4] == ':'
  }

  /** A URL's text up to its query (`?`) or fragment (`#`), which `fileURLToPath` ignores. */
  function UrlPath(s: string): (r: string)
    ensures |r| <= |s| && r == s[..|r|]
    ensures '?' !in r && '#' !in r
    ensures |r| < |s| ==> s[|r|] in {'?', '#'}
  {
    if |s| == 0 || s[0] == '?' || s[0] == '#' then ""
    else [s[0]] + UrlPath(s[1..])
  }

  /** Text before the query or fragment is kept whole. */
  lemma {:induction false} UrlPathPrefix(s: string, t: string)
    requires '?' !in s && '#' !in s
    ensures UrlPath(s + t) == s + UrlPath(t)
  {
    if |s| > 0 {
      assert s[0] in s;
      assert (s + t)[0] == s[0] && (s + t)[1..] == s[1..] + t;
      UrlPathPrefix(s[1..], t);
      assert [s[0]] + (s[1..] + UrlPath(t)) == s + UrlPath(t);
    } else {
      assert s + t == t;
    }
  }

  /**
   * `fileURLToPath` on POSIX: the part after `file:` and an optional `//host`, up to the
   * query or fragment, where the host must be empty or `localhost`. A path without a
   * leading `/` gets one, and an empty path is `/`.
   */
  function FileUrlToPath(url: string): (r: Result<string, Thrown>)
    requires IsFileUrl(url)
    ensures r.Ok? ==> |r.value| > 0 && r.value[0] == '/' && '?' !in r.value && '#' !in r.value
  {
    PathOf(UrlPath(url[5..]))
  }

  /** The path `fileURLToPath` reads from what follows `file:`, up to the query or fragment. */
  function PathOf(rest: string): (r: Result<string, Thrown>)
    requires '?' !in rest && '#' !in rest
    ensures r.Ok? ==> |r.value| > 0 && r.value[0] == '/' && '?' !in r.value && '#' !in r.value
  {
    if !StartsWith(rest, "//") then Ok(if StartsWith(rest, "/") then rest else "/" + rest)
    else
      var authority := rest[2..];
      var host := match IndexOf(authority, "/", 0) case None => authority case Some(k) => authority[..k];
      if host == "" || host == "localhost" then
        var path := authority[|host|..];
        assert path == rest[2 + |host|..];
        Ok(if path == "" then "/" else path)
      else Err(TypeError("File URL host must be \"localhost\" or empty on linux"))
  }

  /**
   * `fileURLToPath` undoes `pathToFileURL` for an absolute path without `?` or `#` (which
   * `pathToFileURL` would percent-encode), and a query or fragment after it is dropped.
   */
  lemma FileUrlRoundTrip(path: string, suffix: string)
    requires |path| > 0 && path[0] == '/' && '?' !in path && '#' !in path
    requires suffix == "" || suffix[0] in {'?', '#'}
    ensures IsFileUrl("file://" + path + suffix) && FileUrlToPath("file://" + path + suffix) == Ok(path)
  {
    var url := "file://" + path + suffix;
    assert url[5..] == "//" + path + suffix;
    UrlPathPrefix("//" + path, suffix);
    assert UrlPath(suffix) == "";
    assert UrlPath(url[5..]) == "//" + path;
    assert ("//" + path)[2..] == path;
    assert OccursAt(path, "/", 0);
  }

  /** The scheme may be written in any case: `FILE:///x` names the file `/x` too. */
  lemma UpperCaseScheme(path: string)
    requires |path| > 0 && path[0] == '/' && '?' !in path && '#' !in path
    ensures IsFileUrl("FILE://" + path) && FileUrlToPath("FILE://" + path) == Ok(path)
  {
    var url := "FILE://" + path;
    assert url[5..] == "//" + path + "";
    UrlPathPrefix("//" + path, "");
    assert UrlPath(url[5..]) == "//" + path;
    assert ("//" + path)[2..] == path;
    assert OccursAt(path, "/", 0);
  }

  /** Without `//`, what follows `file:` is the path, rooted at `/`: `file:foo` names `/foo`. */
  lemma FileUrlWithoutAuthority(p: string)
    requires |p| > 0 && p[0] != '/' && '?' !in p && '#' !in p
    ensures IsFileUrl("file:" + p) && FileUrlToPath("file:" + p) == Ok("/" + p)
  {
    var url := "file:" + p;
    assert url[5..] == p + "";
    UrlPathPrefix(p, "");
    assert UrlPath(url[5..]) == p;
    assert !StartsWith(p, "//") && !StartsWith(p, "/") by {
      assert p[..1][0] == p[0];
    }
  }

  /** A remote host in a file URL is refused, whatever path follows it. */
  lemma FileUrlRemoteHost(host: string, path: string)
    requires |host| > 0 && host != "localhost" && '/' !in host && '?' !in host && '#' !in host
    requires |path| > 0 && path[0] == '/'
    ensures IsFileUrl("file://" + host + path) && FileUrlToPath("file://" + host + path).Err?
  {
    var url := "file://" + host + path;
    var rest := "//" + host + path;
    assert url == "file:" + rest;
    assert url[5..] == rest;
    UrlPathPrefix("//" + host, path);
    var tail := UrlPath(path);
    assert |tail| > 0 && tail[0] == '/';
    RemoteHostRefused(host, tail);
  }

  lemma RemoteHostRefused(host: string, tail: string)
    requires |host| > 0 && host != "localhost" && '/' !in host && '?' !in host && '#' !in host
    requires |tail| > 0 && tail[0] == '/' && '?' !in tail && '#' !in tail
    ensures '?' !in "//" + host + tail && '#' !in "//" + host + tail
    ensures PathOf("//" + host + tail).Err?
  {
    var r := "//" + host + tail;
    var authority := host + tail;
    assert r == "//" + authority;
    assert StartsWith(r, "//") && r[2..] == authority;
    HostBeforeSlash(host, tail);
    assert authority[..|host|] == host;
  }

  /** The host of an authority runs to the first `/`. */
  lemma HostBeforeSlash(host: string, tail: string)
    requires '/' !in host && |tail| > 0 && tail[0] == '/'
    ensures IndexOf(host + tail, "/", 0) == Some(|host|)
  {
    var authority := host + tail;
    assert OccursAt(authority, "/", |host|);
    forall j: nat | j < |host| ensures !OccursAt(authority, "/", j) {
      assert authority[j] == host[j];
    }
  }

  /** The base directory `pluginFinder` searches, as a path from the root. */
  function BaseDir(basedir: string): Result<Path, Thrown> {
    if IsFileUrl(basedir) then
      match FileUrlToPath(basedir)
      case Err(e) => Err(e)
      case Ok(p) => Ok(ParsePath(p))
    else Ok(ParsePath(basedir))
  }

  /** `src/plugins` and `plugins` under `base`, each kept when it is an existing directory. */
  function PluginDirs(root: Node, base: Path): (dirs: seq<Path>)
    ensures forall d :: d in dirs ==> IsDirectory(root, d)
    ensures |dirs| <= 2
  {
    Filter([PathJoin(base, "src/plugins"), PathJoin(base, "plugins")], d => IsDirectory(root, d))
  }

  function Probes(p: Option<Path>): seq<Path> {
    if p.Some? then [p.value] else []
  }

  /** The files the folders of `dir` import, in listing order. */
  function FoldersProbes(root: Node, dir: Path, folders: seq<Node>, entries: seq<string>): (ps: seq<Path>)
    ensures |ps| <= |folders|
  {
    if |folders| == 0 then []
    else FoldersProbes(root, dir, folders[..|folders| - 1], entries) + Probes(FolderProbe(root, dir, folders[|folders| - 1], entries))
  }

  function Listing(root: Node, dir: Path): seq<Node> {
    match Find(root, dir)
    case Some(Dir(_, entries)) => entries
    case _ => []
  }

  /** The files `pluginFinder` imports: for each plugin directory, one per plugin folder at most. */
  function FinderProbes(root: Node, dirs: seq<Path>, entries: seq<string>): seq<Path> {
    if |dirs| == 0 then []
    else FinderProbes(root, dirs[..|dirs| - 1], entries) + FoldersProbes(root, dirs[|dirs| - 1], Listing(root, dirs[|dirs| - 1]), entries)
  }

  /** The first import among `ps` that fails. */
  function FirstFailure(imp: Path -> Result<Value, Thrown>, ps: seq<Path>): (r: Option<Thrown>)
    ensures r.None? <==> forall i :: 0 <= i < |ps| ==> imp(ps[i]).Ok?
  {
    if |ps| == 0 then None
    else if imp(ps[0]).Err? then Some(imp(ps[0]).error)
    else FirstFailure(imp, ps[1..])
  }

  lemma {:induction false} FirstFailureAppend(imp: Path -> Result<Value, Thrown>, xs: seq<Path>, ys: seq<Path>)
    ensures FirstFailure(imp, xs + ys) == if FirstFailure(imp, xs).Some? then FirstFailure(imp, xs) else FirstFailure(imp, ys)
  {
    if |xs| == 0 {
      assert xs + ys == ys;
    } else {
      assert (xs + ys)[0] == xs[0];
      assert (xs + ys)[1..] == xs[1..] + ys;
      FirstFailureAppend(imp, xs[1..], ys);
    }
  }

  /** A single probe fails exactly when its import does. */
  lemma ProbeFailure(imp: Path -> Result<Value, Thrown>, p: Option<Path>)
    ensures FirstFailure(imp, Probes(p)) == ImportFailure(imp, p)
  {
    if p.Some? {
      assert Probes(p)[1..] == [];
    }
  }

  /**
   * `loadPluginsFromDirectory(dir)`: loads every folder listed in `dir`; a failing import does
   * not stop the others, and the first failure in listing order is reported.
   */
  method LoadPluginsFromDirectory(root: Node, dir: Path, entries: seq<string>, imp: Path -> Result<Value, Thrown>)
    returns (imported: seq<Path>, failure: Option<Thrown>)
    ensures imported == FoldersProbes(root, dir, Listing(root, dir), entries)
    ensures failure == FirstFailure(imp, imported)
  {
    var folders := Listing(root, dir);
    imported := [];
    failure := None;
    var f := 0;
    while f < |folders|
      invariant 0 <= f <= |folders|
      invariant imported == FoldersProbes(root, dir, folders[..f], entries)
      invariant failure == FirstFailure(imp, imported)
    {
      var one, err := LoadPluginFolder(root, dir, folders[f], entries, imp);
      assert folders[..f + 1][..f] == folders[..f];
      FirstFailureAppend(imp, imported, Probes(one));
      ProbeFailure(imp, one);
      imported := imported + Probes(one);
      if failure.None? {
        failure := err;
      }
      f := f + 1;
    }
    assert folders[..f] == folders;
  }

  /**
   * `pluginFinder(basedir)`: every plugin directory is loaded (concurrently, so a failing
   * import does not stop the others); the call fails with the first failure, taken here in
   * directory order. A file URL that does not name a local path fails before anything loads.
   */
  method PluginFinder(root: Node, basedir: string, options: LoaderOptions, flags: Flags, imp: Path -> Result<Value, Thrown>)
    returns (imported: seq<Path>, failure: Option<Thrown>)
    ensures BaseDir(basedir).Err? ==> imported == [] && failure == Some(BaseDir(basedir).error)
    ensures BaseDir(basedir).Ok? ==>
      && imported == FinderProbes(root, PluginDirs(root, BaseDir(basedir).value), ValidPluginEntries(options, flags))
      && failure == FirstFailure(imp, imported)
  {
    var base := BaseDir(basedir);
    if base.Err? {
      imported, failure := [], Some(base.error);
      return;
    }
    var dirs := PluginDirs(root, base.value);
    var entries := ValidPluginEntries(options, flags);
    imported, failure := LoadPluginDirs(root, dirs, entries, imp);
  }

  /** Loads each of `dirs` in turn with `loadPluginsFromDirectory`, keeping the first failure. */
  method LoadPluginDirs(root: Node, dirs: seq<Path>, entries: seq<string>, imp: Path -> Result<Value, Thrown>)
    returns (imported: seq<Path>, failure: Option<Thrown>)
    ensures imported == FinderProbes(root, dirs, entries)
    ensures failure == FirstFailure(imp, imported)
  {
    imported := [];
    failure := None;
    var d := 0;
    while d < |dirs|
      invariant 0 <= d <= |dirs|
      invariant imported == FinderProbes(root, dirs[..d], entries)
      invariant failure == FirstFailure(imp, imported)
    {
      var more, err := LoadPluginsFromDirectory(root, dirs[d], entries, imp);
      assert dirs[..d + 1][..d] == dirs[..d];
      FirstFailureAppend(imp, imported, more);
      imported := imported + more;
      if failure.None? {
        failure := err;
      }
      d := d + 1;
    }
    assert dirs[..d] == dirs;
  }

  /** Each imported file lies in one of the plugin directories searched. */
  lemma {:induction false} ProbesInPluginDirs(root: Node, dirs: seq<Path>, entries: seq<string>, p: Path)
    requires p in FinderProbes(root, dirs, entries)
    ensures exists d :: d in dirs && |d| < |p| && p[..|d|] == d
  {
    var n := |dirs| - 1;
    var h := FinderProbes(root, dirs[..n], entries);
    if p in h {
      ProbesInPluginDirs(root, dirs[..n], entries, p);
      var d :| d in dirs[..n] && |d| < |p| && p[..|d|] == d;
      assert d in dirs;
    } else {
      FolderProbesBelow(root, dirs[n], Listing(root, dirs[n]), entries, p);
      assert dirs[n] in dirs;
    }
  }

  /** Each file imported for the folders of `dir` lies below `dir`. */
  lemma {:induction false} FolderProbesBelow(root: Node, dir: Path, folders: seq<Node>, entries: seq<string>, p: Path)
    requires p in FoldersProbes(root, dir, folders, entries)
    ensures |dir| < |p| && p[..|dir|] == dir
  {
    var n := |folders| - 1;
    if p in FoldersProbes(root, dir, folders[..n], entries) {
      FolderProbesBelow(root, dir, folders[..n], entries, p);
    } else {
      var k := FirstExisting(root, dir + [folders[n].name], entries, 0).value;
      assert p == dir + [folders[n].name] + Split(entries[k], '/');
      assert p[..|dir|] == dir;
    }
  }
}
