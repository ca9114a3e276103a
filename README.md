# Hypr core, modelled in Dafny

Hypr is a host runtime for Discord clients that finds, loads, registers and starts plugins.
This project models its core in Dafny and proves properties of that model:

- **Loader** (`src/utils/loader.ts`): resolving what a module exports (`resolveFile`), walking a
  directory tree for modules (`directoryLoader`), filtering extensions and plugin entries by
  runtime, and probing plugin folders for their entry file (`loadPluginFolder`, `pluginFinder`).
  The older resolver in `src/utils/util.ts` is module **Util**.
- **Plugins** (`src/managers/Plugins.ts`, `src/structures/Plugin.ts`,
  `src/libs/GlobalEvents.ts`): the plugin manager as a class. Its collection is an
  insertion-ordered map, and the events and log lines are sequences the methods append to.
  `register`, `initiate` and the `Plugin` constructor are methods over that state.
- **Commands** (`src/structures/Command.ts`): the command schema, the `Command` class and
  its registered view, `toJSON`, and the static defaults. **NameRegex** and
  **LocaleVerification** are the name pattern and the locale check the schema uses.
- **Changelog** / **ChangelogMjs** (`scripts/actions/changelog.js`, `.mjs`): conventional-commit
  parsing, co-author collection, author links, the tag filter, grouping under type labels, the
  section loops, the "Latest" part, "Previous Versions", and the newline collapse.
  The type strip of `changelog.mjs` (line 113) is modelled as written: its pattern has no `u`
  flag, so it removes the letters of its own class text and not emoji. Every entry that script
  parses is therefore filed under Chores. The intended strip is modelled beside it (see Findings).
  **CommitMsgHook** is the commit-msg hook of `changelog.mjs`, which puts a type's emoji in
  front of each header line.
- **GitHub** (`scripts/utils/github.js`, identical to `github.mjs`): repository URL
  normalisation, owner and name extraction, and the tag list.
- **PatchScript**, **BuildScript** and **Placeholders** (`scripts/patch.mjs`,
  `scripts/actions/build.js`): the `[VI]{{key}}[/VI]` placeholder replacement and `version()`.
- **Wrappers**, **Lists**, **OrderedMaps**, **JsStrings** and **JsValues** are shared helpers.
  They cover Option and Result, list filters, the insertion-ordered map, the JavaScript string
  operations used (`trim`, `split`, `join`, `replace`, `\s`, `\w`) and JavaScript values.

Imperative code is imperative here: the plugin manager, the `Plugin` constructor, `Command`
and its defaults are classes with `modifies` clauses. The loops of the changelog scripts,
`loadPluginFolder` and the co-author `while` loop are methods whose loop invariants prove
them equal to the specification functions. Everything else is functions and lemmas.

Where the code departs from the project's documented design, the model follows the code:

- `register` checks only `instanceof Plugin`. The shape check (a string `name` and a function
  `run`) is in the `Plugin` constructor, and it sets no length bound, so an empty name passes.
- `initiate` never emits `PluginLoadFinished`.
- `initiate` is not failure-proof. A plugin whose `run` throws synchronously, or rejects
  with `null` or `undefined`, ends `initiate` with that error.
  - `Plugins.NoLoadFinished` states the first point.
  - `Plugins.FirstEscapeEnds` and `Plugins.LastRunEscaped` state the second.
- The entry list puts `register.js` (and every other root-level entry) before `dist/index.js`.
  So a plugin folder holding both loads `register.js` (`Loader.RegisterJsBeforeDist`).
- A failed import is not contained: it fails `directoryLoader` and `pluginFinder` alike.

## Model

| member | source | states |
|---|---|---|
| NameRegex.TestIsFirstChar | src/utils/regex.ts:5 | `/^[a-zA-Z1-9\s]/` accepts a name exactly when it is non-empty and its first character is an ASCII letter, a digit 1-9 or white space |
| NameRegex.OnlyFirstChar | src/utils/regex.ts:5 | whatever follows the first character never changes the verdict |
| NameRegex.EmptyAndZeroRejected | src/utils/regex.ts:5 | the empty name and every name starting with `0` are rejected |
| NameRegex.PunctuationRejected | src/utils/regex.ts:5 | a name starting with `_` or `-` is rejected |
| Util.IsClassMeansClassSource | src/utils/util.ts:7-11 | `isClass` holds exactly for a function with an object prototype whose source text starts with `class` |
| Util.ResolveFile | src/utils/util.ts:19-27 | any other extension returns the module unchanged; for `.ts` and for a non-class `.js` it throws exactly on `null`/`undefined`; a success is the module, `undefined`, its `default` or one of its export values |
| LocaleVerification.Verify | src/utils/verifications/LocaleVerification.ts:4-14 | every accepted argument comes out as a value of the `Locale` table |
| LocaleVerification.NameFirst | src/utils/verifications/LocaleVerification.ts:5-9 | a member name maps to that member's value, checked before the values |
| LocaleVerification.ValueKept | src/utils/verifications/LocaleVerification.ts:10-12 | a value that is no member's name comes back unchanged |
| LocaleVerification.OthersRejected | src/utils/verifications/LocaleVerification.ts:13 | anything else is refused with `Invalid Locale value` and the argument |
| LocaleVerification.Idempotent | src/utils/verifications/LocaleVerification.ts:4-14 | when no value is also a name, the transform's output is accepted again as itself |
| Util.TsPrefersDefault | src/utils/util.ts:20 | for `.ts` a truthy `default` export is returned, otherwise the first export value (`undefined` when there is none) |
| Util.JsTakesFirstExport | src/utils/util.ts:21-23 | for a non-class `.js` module the first export value is returned, whatever `default` holds |
| Util.JsKeepsClass | src/utils/util.ts:22 | for `.js` a class comes back unchanged |
| Placeholders.KeyLength | scripts/patch.mjs:7 | a key length found by the lazy `(.+?)` search is at least the length tried first and is followed by `}}[/VI]` |
| Placeholders.KeyLengthLazy | scripts/patch.mjs:7 | the key found holds no line terminator and no earlier `}}[/VI]`: it is the shortest match |
| Placeholders.KeyAtStart | scripts/patch.mjs:7 | a placeholder found at the start opens with `[VI]{{`, has a key of at least one character and fits in the text |
| Placeholders.LazyKey | scripts/patch.mjs:7 | the key handed to the callback is what `(.+?)` captures: non-empty, no line break, followed by `}}[/VI]`, no shorter key possible |
| Placeholders.Glue | scripts/patch.mjs:8 | two pieces of output succeed together or the first failure is the result; their texts are joined in order |
| Placeholders.GlueAssoc | scripts/patch.mjs:8 | joining pieces of output is associative |
| Placeholders.Patch | scripts/patch.mjs:8 | `read.replace(regex, fn)` cannot throw when the callback never throws, and what it throws is something the callback throws (the same call runs at scripts/patch.mjs:17 and scripts/actions/build.js:49) |
| Placeholders.VerbatimUnchanged | scripts/patch.mjs:8-14 | a callback that gives every match back unchanged leaves the whole text unchanged |
| Placeholders.PlainPrefix | scripts/patch.mjs:8 | text in which no placeholder can start is copied through before the rest is rewritten |
| Placeholders.NoBracketUnchanged | scripts/patch.mjs:8 | text without `[` comes out unchanged, whatever the callback |
| Placeholders.PatchPlainChar | scripts/patch.mjs:8 | a first character other than `[` is copied and the rewrite goes on after it |
| Placeholders.PlaceholderKey | scripts/patch.mjs:7 | a placeholder `[VI]{{key}}[/VI]` at the start is found with exactly its key |
| Placeholders.KeyFound | scripts/patch.mjs:7 | the lazy search for a placeholder's key runs from any shorter length on to the whole key |
| Placeholders.PatchPlaceholder | scripts/patch.mjs:8 | a placeholder at the start is replaced by the callback's text for its key, then the rest is rewritten |
| Placeholders.OnePlaceholder | scripts/patch.mjs:8 | plain text, then the callback's text for the placeholder, then the rewritten rest |
| Placeholders.SinglePlaceholder | scripts/patch.mjs:8 | in otherwise plain text a single placeholder is replaced by the callback's text and nothing else changes |
| Placeholders.SingleVerbatim | scripts/patch.mjs:8 | a placeholder the callback gives back unchanged leaves the whole text unchanged |
| PatchScript.Version | scripts/patch.mjs:30-36 | the version string starts with `v` and the package version |
| PatchScript.VersionFields | scripts/patch.mjs:32 | splitting the version at `\|` gives `v<version>`, then `GH` if `--gh` and `NPM` if `--npm` was given |
| PatchScript.JoinFlags | scripts/patch.mjs:32 | the version with its flags is the `\|`-join of the version and the flag names |
| PatchScript.IndexReplacer | scripts/patch.mjs:8-14 | the `index.js` callback never throws; `version` gives the version, `name` the package name, and any other key gives the match back |
| PatchScript.OwnerAndRepo | scripts/patch.mjs:19-21 | the repository is the last `/`-separated part of the URL |
| PatchScript.OwnerAndRepoNoSlash | scripts/patch.mjs:19-21 | a URL without `/` is all repository, and the owner is the text `undefined` |
| PatchScript.OwnerAndRepoOfJoin | scripts/patch.mjs:19-21 | a URL made of parts joined with `/` gives its last two parts as owner and repository |
| PatchScript.ExtendReplacer | scripts/patch.mjs:17-27 | the `extend.js` callback throws, for every key, exactly when package.json's URL cannot be read, and then throws that error; when it does not throw, a key other than `version`, `name`, `ghown` and `ghrep` gives the match back |
| PatchScript.PackageUrlGitPlus | scripts/patch.mjs:18 | a package.json URL `git+<url>.git` comes back as `<url>` |
| PatchScript.OwnerAndRepoAtEnd | scripts/patch.mjs:19-21 | whatever comes before them, the last two parts of the URL are owner and repository |
| PatchScript.ExtendGitHubUrl | scripts/patch.mjs:17-24 | with repository URL `git+<base>/owner/repo.git`, `ghown` becomes the owner and `ghrep` the repository |
| PatchScript.ExtendWithoutRepository | scripts/patch.mjs:18-24 | without a `repository` field, `ghown` becomes `undefined` and `ghrep` the empty string |
| PatchScript.ExtendBadUrlThrows | scripts/patch.mjs:18 | a `repository` whose `url` is not a string makes any placeholder throw |
| PatchScript.IndexVersion | scripts/patch.mjs:8-14 | in `index.js` a `version` placeholder becomes the version and the text around it is kept |
| PatchScript.IndexOtherKey | scripts/patch.mjs:11-13 | in `index.js` every key other than `version` and `name` is left as it was |
| BuildScript.Version | scripts/actions/build.js:72-78 | the version starts with `v` and the package version; without a `BUILD_SOURCE`, or with an empty one, it is exactly that |
| BuildScript.VersionFields | scripts/actions/build.js:75 | splitting the version at `\|` gives `v<version>` and then the source, if it is set, when neither contains `\|` |
| BuildScript.Replacer | scripts/actions/build.js:49-59 | the `patchFile` callback throws, for every key, exactly when `getRepoInfo()` throws, and then throws that error; otherwise `ghown` gives the owner, `ghrep` the repository, and an unknown key the match |
| BuildScript.PatchIfPresent | scripts/actions/build.js:33-49 | a missing file is skipped; a present file succeeds exactly when patching its content succeeds, then gives that patched content, and otherwise fails with the error the patch threw |
| BuildScript.PatchOutput | scripts/actions/build.js:33-45 | `index.js` is patched first and its throw ends the build; then `extend.js`, whose throw ends it too; a build that does not throw gives each file's patched content, or nothing for a missing file |
| BuildScript.VersionAndNamePlaceholders | scripts/actions/build.js:51-54 | `version` becomes the build's version and `name` the package name, with the text around them kept |
| BuildScript.OwnerPlaceholder | scripts/actions/build.js:55 | `ghown` becomes the repository's owner and `ghrep` its name |
| BuildScript.UnknownKeyKept | scripts/actions/build.js:55-57 | any other key is left as it was |
| BuildScript.RepoFailureThrows | scripts/actions/build.js:50 | `getRepoInfo()` runs before the key is looked at, so when it throws, every placeholder makes the patch throw |
| BuildScript.PlainFileKept | scripts/actions/build.js:49 | a file without placeholders comes out unchanged whatever the repository |
| GitHub.PackageUrl | scripts/utils/github.js:13 | without a `repository` the fallback is the empty string; with one it succeeds exactly when `url` is a string, and a URL without `git+` comes back as it was or without one trailing `.git` (github.mjs:10 is the same) |
| GitHub.Normalize | scripts/utils/github.js:15 | a URL with no trailing `.git` and no `git@github.com:` prefix is returned unchanged (github.mjs:12 is the same) |
| GitHub.RepoUrl | scripts/utils/github.js:6-16 | `getRepoUrl` throws exactly when git reports no remote and the package.json fallback throws, and then throws the fallback's error; without a remote the URL is the normalised fallback |
| GitHub.RepoUrlSources | scripts/utils/github.js:6-16 | a remote reported by git wins and package.json is not consulted; without one, `getRepoUrl` throws exactly when the fallback does (github.mjs:4-13 is the same) |
| GitHub.SshRemote | scripts/utils/github.js:15 | `git@github.com:path.git` becomes `https://github.com/path` |
| GitHub.FindMatch | scripts/utils/github.js:19 | the match found is the leftmost one at or after the start, and none is missed |
| GitHub.ParseRepoUrl | scripts/utils/github.js:19-22 | `getRepoInfo` throws exactly when the pattern matches nowhere in the URL (github.mjs:16-18 is the same) |
| GitHub.GetRepoInfo | scripts/utils/github.js:17-24 | `getRepoInfo` passes on `getRepoUrl`'s throw; with a URL it throws exactly when the pattern matches nowhere in it |
| GitHub.ParseRepoUrlParts | scripts/utils/github.js:19-22 | after `github.com/` or `github.com:`, owner and name are the two last path segments, with the first `.git` removed from the name (github.mjs:16-18 is the same) |
| GitHub.ParseAfterHost | scripts/utils/github.js:19-22 | once the match is known to start at a position, the parse returns the two segments after the host |
| GitHub.HostAt | scripts/utils/github.js:19 | a match starts right after a prefix without `g` when `github.com` and a separator come next |
| GitHub.NoMatchBefore | scripts/utils/github.js:19 | no match can start before the first `g` |
| GitHub.FirstMatch | scripts/utils/github.js:19 | the search stops at the first position where the pattern matches |
| GitHub.HttpsRoundTrip | scripts/utils/github.js:19-23 | `https://github.com/owner/repo` gives back that owner and name |
| GitHub.NonGitHubFails | scripts/utils/github.js:19-21 | a URL without `github.com` makes `getRepoInfo` throw |
| GitHub.GitTags | scripts/utils/github.js:25-35 | every tag is non-empty and one line; a failed `git tag` gives no tags (github.mjs:21-31 is the same) |
| GitHub.TagsRoundTrip | scripts/utils/github.js:27-30 | tags printed one per line, as `git tag` does, come back as they were, in git's order |
| Plugins.DeclaredEventName | src/libs/GlobalEvents.ts:2-7 | `HyprEvents` gives a string name to every event except `PluginRegisterError`, which it does not declare |
| Plugins.EventName | src/libs/GlobalEvents.ts:2-7 | each declared event goes out under the name the enum gives it |
| Plugins.RegisterErrorUndeclared | src/managers/Plugins.ts:17 | the register error is emitted under `undefined`, not under the name `'PluginRegisterError'` |
| Plugins.EventNamesDistinct | src/libs/GlobalEvents.ts:2-7 | with the missing name added, no two events share a name |
| Plugins.Report | src/managers/Plugins.ts:33-34 | the catch handler throws exactly when the error is `null` or `undefined`; otherwise it logs one line at the given level with the code (or `''`) and the message, plus a trace exactly when `stack` is truthy |
| Plugins.PluginManager.constructor | src/managers/Plugins.ts:43 | a new manager holds no plugins and no client |
| Plugins.PluginManager.Register | src/managers/Plugins.ts:11-21 | a `Plugin` is stored under its name (with a warning when the name was taken) and `PluginLoaded` is emitted; anything else leaves the plugins alone and emits the register error; the manager itself is returned |
| Plugins.PluginManager.Initiate | src/managers/Plugins.ts:27-40 | sets the client and runs the stored plugins in insertion order; the events, the log and the error that escapes are those of `RunAll` |
| Plugins.PluginManager.RunPlugin | src/managers/Plugins.ts:30-38 | one pass of the loop adds exactly the events and log lines of `TryRun` and leaves the plugins and client alone |
| Plugins.TryRun | src/managers/Plugins.ts:30-38 | a synchronous throw escapes with nothing sent; a rejection with a nullish reason escapes; otherwise the attempt sends `PluginFailed` before `PluginLoaded` for a rejection, `PluginLoaded` alone for a success, and nothing escapes |
| Plugins.RunAll | src/managers/Plugins.ts:29-39 | the plugins run are a prefix of the stored ones, taken in order, and all of them when nothing escapes |
| Plugins.RunAllStep | src/managers/Plugins.ts:29-39 | each pass of the loop appends the next plugin's events and log lines |
| Plugins.LastRunEscaped | src/managers/Plugins.ts:29-39 | when `initiate` fails, the last plugin it ran is the one whose attempt escaped |
| Plugins.EscapeIsFinal | src/managers/Plugins.ts:29-39 | after an attempt escapes, no later plugin runs |
| Plugins.FailuresIsolated | src/managers/Plugins.ts:29-39 | when no attempt escapes, every plugin runs and is announced, and `initiate` settles without error |
| Plugins.FirstEscapeEnds | src/managers/Plugins.ts:29-39 | the first escaping attempt ends `initiate` with its error, after the earlier plugins' events and before any later plugin runs |
| Plugins.NoLoadFinished | src/managers/Plugins.ts:27-40 | `initiate` only ever emits `PluginLoaded` and `PluginFailed`, never `PluginLoadFinished` |
| Plugins.RejectionReport | src/structures/Plugin.ts:34-37 | the validation failure handler's first log line is a warning |
| Plugins.Plugin.constructor | src/structures/Plugin.ts:23-38 | a name that is a string and a run that is a function are stored as the options and registered; anything else is logged as a warning and never registered |
| Plugins.OverwriteKeepsOrder | src/managers/Plugins.ts:13-14 | registering a taken name keeps the number of plugins and their order, and the name now gives the new plugin |
| Plugins.NewNameAppends | src/managers/Plugins.ts:14 | registering a new name appends its plugin after all the others |
| Commands.TypeOf | src/structures/Command.ts:32 | the command type schema accepts exactly the numbers 0 to 3 |
| Commands.TypeCode | src/structures/Command.ts:11-16 | every command type's numeric value is accepted back as that type |
| Commands.Prop | src/structures/Command.ts:67 | reading a property gives its value when present and `undefined` otherwise |
| Commands.SpreadProp | src/structures/Command.ts:67 | in `{ ...Command.defaults, ...options }` a property the options give wins and any other comes from the defaults |
| Commands.ParseRecord | src/structures/Command.ts:37-39 | a checked localisation record has no more entries than the object it came from |
| Commands.RecordAccepted | src/structures/Command.ts:37-39 | a localisation record is accepted exactly when every key is a locale and every text passes its length and pattern checks |
| Commands.ParseTypes | src/structures/Command.ts:40 | an accepted type list is non-empty |
| Commands.TypeList | src/structures/Command.ts:24 | a list of command types as given in the options has one number per type, each read back as that type |
| Commands.Validate | src/structures/Command.ts:34-46 | options are accepted exactly when every field passes its check; an accepted name has at most 32 characters and passes the name pattern, a description at most 100, and the type list is non-empty |
| Commands.Parse | src/structures/Command.ts:68 | `validationSchema.parse` on the merged options: an accepted name has at most 32 characters and passes the name pattern; a refusal names at least one field |
| Commands.MinimalAccepted | src/structures/Command.ts:34-46 | a valid name, description and type list alone are accepted, with `aliases` defaulting to `[]` and the optional fields absent |
| Commands.BadNameRefused | src/structures/Command.ts:35 | a name that is too long or fails the pattern is refused, and reported first, whatever the other fields are |
| Commands.AliasesDefault | src/structures/Command.ts:36 | absent aliases come out as `[]` |
| Commands.PartialFields | src/structures/Command.ts:128-129 | the partial schema accepts exactly when every given field passes its check, and keeps only fields that were given |
| Commands.PartialField | src/structures/Command.ts:128-129 | one field of the partial schema: an absent field passes and is not kept; a given one passes exactly when its check does, and a failure names that field |
| Commands.LocalizationsValue | src/structures/Command.ts:114-116 | a checked localisation record turns back into an object with one property per entry |
| Commands.PermissionsField | src/structures/Command.ts:119 | `default_member_permissions` is `null` when no permissions are set, otherwise the resolved bit field (or `null` when it does not resolve) |
| Commands.EntryFor | src/structures/Command.ts:105-123 | each entry carries the command's name and its type, and only a slash entry carries the description and the other fields |
| Commands.NonMessage | src/structures/Command.ts:104 | the filter drops every `MESSAGE` type and keeps every other one |
| Commands.EntriesMatchTypes | src/structures/Command.ts:103-124 | `toJSON` gives one entry per non-message type, in the list's order, each named after the command, and only slash entries have a description |
| Commands.Command.constructor | src/structures/Command.ts:66-81 | the fields are set from the validated options and the command is not registered |
| Commands.Command.View | src/structures/Command.ts:92-94 | the view made by `Object.create` has the same fields, is registered and holds the client |
| Commands.Command.Register | src/structures/Command.ts:91-96 | `register` returns a new registered view with the client and leaves the receiver as it was |
| Commands.Command.ToJSON | src/structures/Command.ts:98-125 | `toJSON` throws exactly when the command is not registered; otherwise it returns the entries for its type list |
| Commands.CommandClass.constructor | src/structures/Command.ts:64 | there are no defaults at first |
| Commands.CommandClass.SetDefaults | src/structures/Command.ts:127-131 | valid partial options become the defaults; invalid ones throw and leave the defaults as they were |
| Commands.CommandClass.Construct | src/structures/Command.ts:66-68 | `new Command` throws exactly when the defaults merged under the options fail validation, with the same fields reported; otherwise a new unregistered command holds the validated options |
| Loader.ResolveFile | src/utils/loader.ts:18-32 | other extensions return the module unchanged; `.ts`/`.mjs` throw exactly on a nullish module; a `.js`/`.cjs` class is returned unchanged, and a `.js`/`.cjs` module that is no class throws exactly when it is nullish (reading `default`); any result is `default`, an export value or the module itself |
| Loader.JsTruthyDefault | src/utils/loader.ts:23-25 | for a `.js` or `.cjs` module that is no class, a truthy `default` is the result |
| Loader.JsFallback | src/utils/loader.ts:23-28 | for a `.js` or `.cjs` module that is no class and whose `default` is falsy, the result is the sole export value when there is exactly one, and the whole module otherwise |
| Loader.ResolversAgreeOnTs | src/utils/loader.ts:19-20 | for `.ts` the loader's resolver and the older one in `util.ts` agree, and `.mjs` is treated like `.ts` |
| Loader.ResolversDifferOnJsDefault | src/utils/loader.ts:23-25 | for a `.js` module with a truthy `default` the loader returns `default`, where the older resolver returns the first export value |
| Loader.SoleDefaultExport | src/utils/loader.ts:18-29 | a module whose only export is a truthy `default` resolves to it under every extension rule |
| Loader.ValidExtensionsByRuntime | src/utils/loader.ts:131-138 | the valid extensions are `.js`, then `.mjs` under ESM or `.cjs` otherwise, then `.ts` under tsx |
| Loader.RootJsEntryRule | src/utils/loader.ts:140-147 | `index.js` and `register.js` are accepted under every runtime |
| Loader.DistJsEntryRule | src/utils/loader.ts:140-147 | the four `dist/` entries are accepted under every runtime |
| Loader.TsEntryRule | src/utils/loader.ts:142 | `index.ts` and `register.ts` are accepted exactly under tsx |
| Loader.MjsEntryRule | src/utils/loader.ts:143 | the `.mjs` entries are accepted exactly under ESM |
| Loader.CjsEntryRule | src/utils/loader.ts:144 | the `.cjs` entries are accepted exactly outside ESM |
| Loader.ProbedIffAllowed | src/utils/loader.ts:140-147 | an entry is probed exactly when it is listed and its ending is accepted |
| Loader.RootJsEntriesProbed | src/utils/loader.ts:43-56 | `index.js` and `register.js` are probed under every runtime |
| Loader.DistEntriesProbed | src/utils/loader.ts:52-55 | the `dist/` entries are probed under every runtime |
| Loader.TsEntriesProbed | src/utils/loader.ts:45 | `index.ts` and `register.ts` are probed exactly under tsx |
| Loader.MjsEntriesProbed | src/utils/loader.ts:46 | `index.mjs` and `register.mjs` are probed exactly under ESM |
| Loader.CjsEntriesProbed | src/utils/loader.ts:47 | `index.cjs` and `register.cjs` are probed exactly outside ESM |
| Loader.IndexJsFirst | src/utils/loader.ts:43-56 | the root `index.js` is the first entry probed under every runtime |
| Loader.ExtName | src/utils/loader.ts:80 | an extension is empty or starts with its name's last `.`, ends the name and is shorter than it |
| Loader.ParsePath | src/utils/loader.ts:74 | joined paths hold no empty and no `.` segments |
| Loader.Child | src/utils/loader.ts:71 | the entry found is in the listing and has the name asked for |
| Loader.Flatten | src/utils/loader.ts:86-90 | `?? []` then `.flat()` gives nothing for a nullish value and the value itself for anything but an array |
| Loader.DirectoryLoader | src/utils/loader.ts:67-91 | a missing path gives `[]`; a directory loads its listing with the valid extensions; a file where a directory is expected throws |
| Loader.LoadEntries | src/utils/loader.ts:73-90 | the entries load exactly when each entry loads; otherwise the error is that of the first entry, in listing order, that fails |
| Loader.LoadEntriesAppend | src/utils/loader.ts:73-90 | listing order is kept: earlier entries' values and imports come first |
| Loader.ImportsBelow | src/utils/loader.ts:74-84 | each imported path lies strictly below the directory, through the entry, and ends in a valid extension |
| Loader.ImportsBelowAll | src/utils/loader.ts:73-84 | each path imported for a listing lies below the directory, under one of the listed names, with a valid extension |
| Loader.ImportsDistinct | src/utils/loader.ts:67-91 | in a tree whose listings have distinct names, no file is imported twice |
| Loader.ImportsDistinctAll | src/utils/loader.ts:73-89 | the same for every entry of a listing |
| Loader.OneValuePerModule | src/utils/loader.ts:73-90 | when every import succeeds with a single defined value, the loader returns one value per imported file, in the order found |
| Loader.OneValuePerModuleAll | src/utils/loader.ts:73-90 | the same for a whole listing |
| Loader.NothingToImport | src/utils/loader.ts:81 | a subtree with no file of a valid extension loads to `[]` |
| Loader.ImportSpecifier | src/utils/loader.ts:124-129 | `import()` gets the plain path exactly for CommonJS files (`.cjs`, or `.js` outside ESM) and a file URL otherwise |
| Loader.FirstExisting | src/utils/loader.ts:99-105 | the entry chosen exists and no earlier one does; none is chosen only when none exists |
| Loader.LoadPluginFolder | src/utils/loader.ts:93-106 | a plugin folder imports the first valid entry that exists, or nothing, and passes on that import's failure |
| Loader.FirstEntryWins | src/utils/loader.ts:99-104 | when the first entry exists, it is the one imported |
| Loader.IndexJsWins | src/utils/loader.ts:43-56 | with the default entries, a folder with a root `index.js` loads that file under every runtime |
| Loader.RegisterJsBeforeDist | src/utils/loader.ts:43-56 | a folder with a root `register.js` loads a file lying directly in the folder, so its `dist/` build is never the one loaded |
| Loader.RootEntriesFirst | src/utils/loader.ts:43-56 | under every runtime the valid entries list `register.js`, and before it only root-level entries |
| Loader.ProbeIsValidEntry | src/utils/loader.ts:94-104 | what a folder imports exists, lies in the folder and comes from a valid entry |
| Loader.UrlPath | src/utils/loader.ts:110 | the part of a URL `fileURLToPath` reads: everything before the first `?` or `#`, which holds neither |
| Loader.FileUrlToPath | src/utils/loader.ts:110 | a path from a file URL is absolute and holds no `?` and no `#` |
| Loader.FileUrlRoundTrip | src/utils/loader.ts:109-110 | a `file://` URL of an absolute path without `?` or `#` is recognised and turned back into that path, and a query or fragment after it is dropped |
| Loader.UpperCaseScheme | src/utils/loader.ts:34-39 | `FILE://` is a file URL as well, and names the same path |
| Loader.FileUrlWithoutAuthority | src/utils/loader.ts:109-110 | `file:` followed by a relative path names that path under `/` (`file:foo` is `/foo`) |
| Loader.FileUrlRemoteHost | src/utils/loader.ts:109-110 | a `file://` URL with a remote host is recognised and then refused, whatever path, query or fragment follows |
| Loader.PluginDirs | src/utils/loader.ts:113-115 | at most `src/plugins` and `plugins` are searched, and only when they are existing directories |
| Loader.FoldersProbes | src/utils/loader.ts:119-122 | a directory imports at most one file per listed folder |
| Loader.FirstFailure | src/utils/loader.ts:116 | no failure is reported exactly when every import succeeds |
| Loader.FirstFailureAppend | src/utils/loader.ts:116 | a failure in an earlier batch is the one reported |
| Loader.ProbeFailure | src/utils/loader.ts:102 | a single probe fails exactly when its import does |
| Loader.LoadPluginsFromDirectory | src/utils/loader.ts:119-122 | every listed folder is loaded; a failing import does not stop the others, and the first failure in listing order is reported |
| Loader.PluginFinder | src/utils/loader.ts:108-117 | a file URL that names no local path fails before anything loads; otherwise every plugin directory is loaded and the first failure is reported |
| Loader.LoadPluginDirs | src/utils/loader.ts:116 | each plugin directory is loaded in turn and the first failure is kept |
| Loader.ProbesInPluginDirs | src/utils/loader.ts:113-116 | each imported file lies in one of the plugin directories searched |
| Loader.FolderProbesBelow | src/utils/loader.ts:119-122 | each file imported for a directory's folders lies below that directory |
| Changelog.ShortHash | scripts/actions/changelog.js:26-28 | the short hash starts the full hash and has seven characters, or all of them when the hash is shorter |
| Changelog.CommitLink | scripts/actions/changelog.js:30-33 | the link text is the short hash and the target ends in `/commit/` and the full hash |
| Changelog.AfterType | scripts/actions/changelog.js:69 | after the type, the optional scope and `: ` take at least two characters and stay inside the subject |
| Changelog.ParseSubject | scripts/actions/changelog.js:69-70 | a conventional subject has a non-empty type of word characters and a non-empty one-line description |
| Changelog.ParseSubjectRoundTrip | scripts/actions/changelog.js:69 | a word, an optional scope without `)`, `: ` and a one-line description put together parse back into those parts |
| Changelog.AfterTypeOf | scripts/actions/changelog.js:69 | a well-formed tail gives back its scope and the start of its description |
| Changelog.ParseSubjectSound | scripts/actions/changelog.js:69 | a subject that parses is its type, scope, `: ` and description put back together |
| Changelog.AfterTypeSound | scripts/actions/changelog.js:69 | what the tail parse accepts is a scope, `: ` and the rest |
| Changelog.NotWordNotConventional | scripts/actions/changelog.js:69 | an empty subject, or one that does not start with a word character, is not conventional |
| Changelog.CoAuthorAtStart | scripts/actions/changelog.js:74 | a trailer matched at the start leaves a strictly shorter rest |
| Changelog.NextCoAuthor | scripts/actions/changelog.js:76 | each match leaves a strictly shorter rest, so the loop ends |
| Changelog.CollectCoAuthors | scripts/actions/changelog.js:72-80 | the `while` loop collects exactly the co-authors of the body, in order |
| Changelog.CoAuthorTrailer | scripts/actions/changelog.js:74-78 | a `Co-authored-by: name <email>` trailer after text without `C` is the next match, with name and email trimmed |
| Changelog.CoAuthorsAfterTrailer | scripts/actions/changelog.js:76-79 | each trailer contributes its person and collection goes on after it |
| Changelog.TwoTrailers | scripts/actions/changelog.js:76-79 | two trailers are collected in the order they appear |
| Changelog.FormatAuthor | scripts/actions/changelog.js:82-93 | a bot links with its `[bot]` marks removed and shows one mark at the end; anyone else without a no-reply address links by name |
| Changelog.NoReplyUsesLocalPart | scripts/actions/changelog.js:87-91 | a GitHub no-reply address links to its local part, whatever the display name |
| Changelog.BotLink | scripts/actions/changelog.js:83-85 | a bot named `name[bot]` links to `name` and shows `name[bot]` |
| Changelog.AuthorInfo | scripts/actions/changelog.js:95-102 | the author text is empty exactly when the name or the email is missing, and otherwise starts with `by ` and the formatted author |
| Changelog.ParseCommit | scripts/actions/changelog.js:68-124 | hash, date and author text are carried over; a conventional subject gives its type, scope and description; any other subject gives a chore without scope described by the whole subject |
| Changelog.UniqueTags | scripts/actions/changelog.js:129-131 | every tag kept is non-empty, not `lastest` and has no `undefined` in it |
| Changelog.UniqueTagsMembers | scripts/actions/changelog.js:129-131 | a tag is kept exactly when it is among the tags and usable |
| Changelog.UniqueTagsSnoc | scripts/actions/changelog.js:129 | tags keep the order they first appear in; a repeat or an unusable tag adds nothing |
| Changelog.UniqueTagsDistinct | scripts/actions/changelog.js:129 | no tag is kept twice |
| Changelog.CollapseNewlines | scripts/actions/changelog.js:212 | collapsing never lengthens the text and keeps a first character that is not a newline |
| Changelog.CollapseHasNoTriple | scripts/actions/changelog.js:212 | the collapsed text never has three newlines in a row |
| Changelog.CollapseKeeps | scripts/actions/changelog.js:212 | text without three newlines in a row is left as it is |
| Changelog.CollapseIdempotent | scripts/actions/changelog.js:212 | collapsing twice is collapsing once |
| Changelog.TypeLabel | scripts/actions/changelog.js:184 | a type the map does not have as its own key gets the Chores label; a known type gets its own label |
| Changelog.EntryFiled | scripts/actions/changelog.js:183-189 | each commit is filed under its type's label and under no other |
| Changelog.Section | scripts/actions/changelog.js:183-189 | corrected reading: a section holds no more commits than were given, and every one of them has that section's label |
| Changelog.UnknownTypeUnderChores | scripts/actions/changelog.js:184 | a commit of an unknown type is filed under Chores by `TypeLabel`; as written, it is filed under Chores exactly when its type is not the name of an inherited property |
| Changelog.EntryFiledAsWritten | scripts/actions/changelog.js:183-189 | as written, each commit is filed under the key `typeMap[commit.type] \|\| '🔧 Chores'` gives, and under no other |
| Changelog.GroupKeyAsWritten | scripts/actions/changelog.js:184 | as written, a type falls on an inherited `Object.prototype` member exactly when it is not in the type map and is named like one; any other key is the type's label |
| Changelog.SectionAsWritten | scripts/actions/changelog.js:183-189 | as written, a section holds no more commits than were given, each has that label, and none has a type that falls on an inherited member |
| Changelog.SectionOrder | scripts/actions/changelog.js:183-189 | within a section, commits keep their order |
| Changelog.ChoresIsALabel | scripts/actions/changelog.js:15 | the Chores fallback is one of the map's labels, so its section is written |
| Changelog.SectionEntrySnoc | scripts/actions/changelog.js:185-188 | one more commit is pushed onto its own label's group and leaves the others as they were |
| Changelog.AsWrittenAgreesElsewhere | scripts/actions/changelog.js:184 | apart from types named like `Object.prototype` members, the lookup as written files commits where `TypeLabel` does |
| Changelog.PrototypeTypeDropped | scripts/actions/changelog.js:184-189 | as written, a commit whose type is an inherited property name reaches no section |
| Changelog.ConstructorCommitDropped | scripts/actions/changelog.js:184-205 | the commit `constructor: <text>` parses with type `constructor`, is lost from every section as written, and is kept under Chores by `TypeLabel` |
| Changelog.GroupEntries | scripts/actions/changelog.js:181-189 | corrected reading: the `forEach` builds, for each label, exactly the group `SectionEntry` specifies, with the label from `TypeLabel` |
| Changelog.LineShape | scripts/actions/changelog.js:205 | a commit line is a list item ending in the link to the full commit and a newline |
| Changelog.SectionText | scripts/actions/changelog.js:200-208 | a label's section is empty exactly when it has no commits |
| Changelog.RenderSections | scripts/actions/changelog.js:197-209 | corrected reading: the `typeOrder.forEach` writes exactly `SectionsText` over the map's labels, in map order, with the commits grouped by `TypeLabel` |
| Changelog.SectionsStep | scripts/actions/changelog.js:199-208 | each pass writes the label's section, when it has commits, after the sections so far |
| Changelog.RenderSection | scripts/actions/changelog.js:201-207 | a heading, one line per commit in order, then a blank line |
| Changelog.SectionsAppend | scripts/actions/changelog.js:197-209 | sections over two runs of labels are those of each run, one after the other |
| Changelog.SectionsOfOneLabel | scripts/actions/changelog.js:199-208 | a label without commits adds nothing, and one with commits adds its section in its place |
| Changelog.VersionDate | scripts/actions/changelog.js:194 | the version date is the first commit's date, or today |
| Changelog.ParseAll | scripts/actions/changelog.js:180 | one parsed entry per commit, in order |
| Changelog.RenderVersion | scripts/actions/changelog.js:191-209 | writes the version heading and its sections as `VersionText` specifies |
| Changelog.VersionBlock | scripts/actions/changelog.js:177-178 | a tag's block is empty exactly when it has no commits since the previous tag |
| Changelog.AppendVersions | scripts/actions/changelog.js:174-210 | the loop over the tags appends each tag's block, newest first |
| Changelog.VersionsStep | scripts/actions/changelog.js:174-210 | each pass appends the tag's block, or nothing for a tag without commits |
| Changelog.GenerateChangelog | scripts/actions/changelog.js:126-213 | corrected reading: the changelog is the preamble and every tag's block, collapsed, and has no three newlines in a row; the blocks group commits by `TypeLabel` |
| Changelog.EveryEntryShown | scripts/actions/changelog.js:183-209 | by `TypeLabel` every commit of a version lands in a section that is written: none is lost; as written, a commit lands in its label's section exactly when its type is a key of the map or not the name of an inherited property |
| Changelog.LabelInValues | scripts/actions/changelog.js:184 | a type's label is one of the map's labels or Chores |
| Changelog.PreviousLinks | scripts/actions/changelog.js:262-267 | the "Previous Versions" list links every tag but the newest and the oldest, newest first, each to its compare URL |
| Changelog.PreviousVersions | scripts/actions/changelog.js:262-267 | the loop writes exactly those links |
| Changelog.LatestTagged | scripts/actions/changelog.js:223-269 | corrected reading: with a tag, the newest version in full and then the links, collapsed, with no three newlines in a row |
| Changelog.LatestWithLinks | scripts/actions/changelog.js:214-270 | corrected reading: no usable tag gives `No tags found.`; otherwise the collapsed latest body |
| ChangelogMjs.EveryEntryShownMjs | scripts/actions/changelog.mjs:204-228 | every entry of a version lands in a section that is written, in changelog.mjs's own type map |
| ChangelogMjs.CoreAt | scripts/actions/changelog.mjs:105 | a match found at a position is well formed: a word-character type there, an optional scope, `: ` and a non-empty run of emoji |
| ChangelogMjs.CloseAt | scripts/actions/changelog.mjs:105 | the scope group runs to the first `)` |
| ChangelogMjs.AfterTypeAt | scripts/actions/changelog.mjs:105 | the scope and `: ` after the type take at least two characters and stay inside the subject |
| ChangelogMjs.AfterTypeAtAgrees | scripts/actions/changelog.mjs:105 | the scope group reads as in changelog.js's pattern |
| ChangelogMjs.MatchAt | scripts/actions/changelog.mjs:105 | the pattern tried at a position, emoji lead included, gives a well-formed match |
| ChangelogMjs.LeadEnd | scripts/actions/changelog.mjs:105 | the optional lead of emoji and white space ends inside the subject, at or after where it starts |
| ChangelogMjs.Matches | scripts/actions/changelog.mjs:106 | `matchAll` gives well-formed matches that do not overlap, in order |
| ChangelogMjs.StripType | scripts/actions/changelog.mjs:113 | the replace, whose pattern has no `u` flag, leaves none of the characters of its class's own text (`p`, `{`, `}`, `_`, `E`, `P`, `m`, `o`, `j`, `i`, `r`, `e`, `s`, `n`, `t`, `a`, `x`, `d`, `c`, `g`, `h`) in the type and never lengthens it |
| ChangelogMjs.StripTypeKeeps | scripts/actions/changelog.mjs:113 | a character is in the stripped type exactly when it is in the type and is not one of those characters |
| ChangelogMjs.StripEmoji | scripts/actions/changelog.mjs:113 | corrected reading, with the `u` flag: the replace leaves no emoji in the type and never lengthens it |
| ChangelogMjs.ParseCommitMjs | scripts/actions/changelog.mjs:104-134 | a commit gives at least one entry, all with its hash, date and author text; one entry per match in match order, holding the match's type with the class's characters stripped, its scope and its description, or the whole subject as a chore when nothing matches |
| ChangelogMjs.DescriptionKept | scripts/actions/changelog.mjs:115 | trimming a matched description changes nothing: it is a run of emoji |
| ChangelogMjs.IntendedStripKeepsType | scripts/actions/changelog.mjs:113 | corrected reading, with the `u` flag: the strip leaves every matched type, a run of word characters, as it is |
| ChangelogMjs.FlatParse | scripts/actions/changelog.mjs:166 | `flatMap` gives at least one entry per commit, the first commit's entries first |
| ChangelogMjs.FlatParseAppend | scripts/actions/changelog.mjs:165-166 | the entries of later commits come after those of earlier ones |
| ChangelogMjs.FlatParseFirstDate | scripts/actions/changelog.mjs:213 | the version date is the first commit's date when it has one |
| ChangelogMjs.CoreAtOf | scripts/actions/changelog.mjs:105 | a conventional commit written in front of anything but an emoji matches at its type |
| ChangelogMjs.MatchOf | scripts/actions/changelog.mjs:105 | the match at such a commit reads back its type, scope and description |
| ChangelogMjs.MatchesAtSome | scripts/actions/changelog.mjs:106 | after a match, `matchAll` searches on from its end |
| ChangelogMjs.MatchesAtNone | scripts/actions/changelog.mjs:106 | where nothing matches, the search goes on one character later |
| ChangelogMjs.MatchAtPlain | scripts/actions/changelog.mjs:105 | without an emoji at the position, the optional lead is empty |
| ChangelogMjs.NoMatchAtSeparator | scripts/actions/changelog.mjs:105 | nothing matches at a character that is neither an emoji nor a word character |
| ChangelogMjs.OneConventionalCommit | scripts/actions/changelog.mjs:106-120 | a subject that is one conventional commit with an emoji description gives exactly one entry: its type stripped of the class's characters, its scope and its description |
| ChangelogMjs.LeadSkipped | scripts/actions/changelog.mjs:105-113 | an emoji lead and the white space after it belong to neither the type nor the description: the entry holds the stripped type and the description |
| ChangelogMjs.MatchAtLead | scripts/actions/changelog.mjs:105 | the lead taken is the whole run of emoji and then the whole run of white space |
| ChangelogMjs.TwoConventionalCommits | scripts/actions/changelog.mjs:106-120 | two conventional commits one space apart give two entries, in order, each with its stripped type, scope and description |
| ChangelogMjs.TwoMatchEntries | scripts/actions/changelog.mjs:110-120 | two matches give two entries, in order, each with its stripped type, scope and description, sharing the commit's hash, date and author text |
| ChangelogMjs.TwoMatches | scripts/actions/changelog.mjs:106 | a match that ends one space before another is followed by it |
| ChangelogMjs.NoEmojiNoMatch | scripts/actions/changelog.mjs:105-106 | a subject without emoji has no match |
| ChangelogMjs.PlainSubjectIsChore | scripts/actions/changelog.mjs:124-133 | a subject without emoji, even a conventional one, becomes a single chore described by the whole subject |
| ChangelogMjs.ParsedShape | scripts/actions/changelog.mjs:110-133 | every entry of a commit has the type `chore` or a type with none of the class's characters |
| ChangelogMjs.FlatParseShape | scripts/actions/changelog.mjs:166 | so has every entry of `flatMap(parseCommit)` |
| ChangelogMjs.KeysMarked | scripts/actions/changelog.mjs:11-29 | every key of the type map has one of the class's characters among its first three |
| ChangelogMjs.InheritedNamesMarked | scripts/actions/changelog.mjs:170 | so has every property name a plain object inherits, which `typeMap[commit.type]` also reads |
| ChangelogMjs.ChoreIsChores | scripts/actions/changelog.mjs:170 | the fallback type `chore` is filed under `🔧 Chores`, also by the lookup as written |
| ChangelogMjs.FeatIsFeatures | scripts/actions/changelog.mjs:12 | the type `feat` has the label `✨ Features` |
| ChangelogMjs.ShapedUnderChores | scripts/actions/changelog.mjs:170 | a stripped type is no key and no inherited name, so it is filed under `🔧 Chores` by the lookup as written |
| ChangelogMjs.ParsedUnderChores | scripts/actions/changelog.mjs:166-170 | every entry changelog.mjs parses from a commit is filed under `🔧 Chores` |
| ChangelogMjs.FlatParseUnderChores | scripts/actions/changelog.mjs:166-170 | every entry of `flatMap(parseCommit)` is filed under `🔧 Chores` |
| ChangelogMjs.NoSectionsElsewhere | scripts/actions/changelog.mjs:179-191 | labels under which no entry is filed write nothing |
| ChangelogMjs.OneLabelSections | scripts/actions/changelog.mjs:179-191 | when every entry has one label, the sections are that label's section alone, holding every entry |
| ChangelogMjs.MjsLabelsAroundChores | scripts/actions/changelog.mjs:11-29 | `🔧 Chores` is one of the type map's labels, and only once |
| ChangelogMjs.VersionOfOneLabel | scripts/actions/changelog.mjs:201-228 | a version whose entries all have one label is its heading and that label's section |
| ChangelogMjs.VersionOnlyChores | scripts/actions/changelog.mjs:201-228 | as written, every tag's block is its heading and one `🔧 Chores` section listing every entry of its commits |
| ChangelogMjs.LatestOfOneLabel | scripts/actions/changelog.mjs:177-191 | a Latest section whose entries all have one label is its heading and that label's section |
| ChangelogMjs.ChoresLatest | scripts/actions/changelog.mjs:166-191 | with changelog.mjs's type map, the Latest section of parsed commits is its heading and one `🔧 Chores` section |
| ChangelogMjs.LatestOnlyChores | scripts/actions/changelog.mjs:166-191 | as written, the Latest section is its heading and one `🔧 Chores` section listing every entry of its commits |
| ChangelogMjs.FeatStrippedToF | scripts/actions/changelog.mjs:110-120 | as written, a `feat` commit such as `feat: ✨` gives one entry of type `f`, filed under `🔧 Chores` |
| ChangelogMjs.IntendedFeatUnderFeatures | scripts/actions/changelog.mjs:113 | corrected reading, with the `u` flag: the same commit keeps the type `feat`, whose label is `✨ Features` |
| ChangelogMjs.DropCR | scripts/actions/changelog.mjs:141 | a line loses at most one `\r` at its end |
| ChangelogMjs.SplitLines | scripts/actions/changelog.mjs:141 | splitting gives at least one line and no line holds `\n` |
| ChangelogMjs.SplitLinesJoin | scripts/actions/changelog.mjs:141 | lines joined with `\n` split back into themselves when none holds `\n` and none but the last ends in `\r` |
| ChangelogMjs.SplitLinesPlain | scripts/actions/changelog.mjs:141 | without `\r`, the lines are the pieces between the `\n`s |
| ChangelogMjs.JoinSplitLines | scripts/actions/changelog.mjs:350-364 | splitting and joining again with `\n` gives back a text without `\r` |
| ChangelogMjs.LastCommitList | scripts/actions/changelog.mjs:139-151 | no message, or an empty one, gives no commits; each commit has hash `manual`, a non-empty trimmed subject, today's date and the fixed author |
| ChangelogMjs.LastCommitsAre | scripts/actions/changelog.mjs:141-150 | a message gives one commit per non-blank line, in order, with the line trimmed as subject |
| ChangelogMjs.LastCommitMembers | scripts/actions/changelog.mjs:141-150 | the commits of a message are exactly its non-blank lines, trimmed |
| ChangelogMjs.RenderLatest | scripts/actions/changelog.mjs:177-191 | writes the Latest heading and the sections of the entries in type-map order |
| ChangelogMjs.LatestPart | scripts/actions/changelog.mjs:162-193 | the Latest part is written exactly when there is a tag or a message and there are unreleased commits, and then starts with `## Latest` |
| ChangelogMjs.PendingAfterUnreleased | scripts/actions/changelog.mjs:165-175 | in each section, the unreleased commits' entries come first and the message's after them |
| ChangelogMjs.GenerateWithLatest | scripts/actions/changelog.mjs:136-232 | the changelog is the preamble, the Latest part and every tag's block, collapsed, with no three newlines in a row |
| ChangelogMjs.GenerateChangelogMjs | scripts/actions/changelog.mjs:136-232 | the same with changelog.mjs's type map, its parser with the type strip as written, and its styles; VersionOnlyChores and LatestOnlyChores say what each block then holds |
| ChangelogMjs.LatestWithLinksOf | scripts/actions/changelog.mjs:235-319 | no tags and no commits give `No tags found`; no tags give the uncollapsed Latest section of every commit; otherwise the collapsed latest body with the newest tag's commits flattened |
| ChangelogMjs.LatestTaggedAsWritten | scripts/actions/changelog.mjs:278-302 | as written, the tagged branch throws exactly when the newest tag has at least one commit |
| ChangelogMjs.NewestCommitLost | scripts/actions/changelog.mjs:278-302 | as written, any commit under the newest tag makes the function throw, where the corrected text lists that commit's line |
| ChangelogMjs.MjsCommitShown | scripts/actions/changelog.mjs:166-191 | every entry changelog.mjs parses has a label among the type map's labels |
| ChangelogMjs.NewestCommitsListed | scripts/actions/changelog.mjs:278-306 | every entry of the newest tag's commits whose label has a section has its line in the text |
| ChangelogMjs.SectionsInclude | scripts/actions/changelog.mjs:216-228 | an entry's line is among the sections written for the entries it is in |
| ChangelogMjs.LabelSectionIncludes | scripts/actions/changelog.mjs:219-226 | an entry's line is in its label's section |
| ChangelogMjs.LinesInclude | scripts/actions/changelog.mjs:221-225 | each entry's line is among the lines written |
| CommitMsgHook.HeaderType | scripts/actions/changelog.mjs:348-353 | no type is found exactly when the line opens with no key's header; otherwise the type found is the first key, in map order, whose header the line opens with |
| CommitMsgHook.LabelOf | scripts/actions/changelog.mjs:356 | a key of the map reads back its own label |
| CommitMsgHook.UnitPrefix | scripts/actions/changelog.mjs:356 | `slice(0, 2)` on whole characters: a prefix of at most two UTF-16 code units that no further whole character fits onto |
| CommitMsgHook.EmojiMark | scripts/actions/changelog.mjs:356 | a label's emoji is the prefix before its first space |
| CommitMsgHook.RewriteLineAsWritten | scripts/actions/changelog.mjs:352-362 | as written, a line without a header is left as it is |
| CommitMsgHook.RewriteLine | scripts/actions/changelog.mjs:352-362 | a line without a header is left as it is |
| CommitMsgHook.RewriteMessage | scripts/actions/changelog.mjs:350-364 | a message of one line is rewritten as that line |
| CommitMsgHook.RewriteMessageAsWritten | scripts/actions/changelog.mjs:350-364 | as written, a message of one line is rewritten as that line |
| CommitMsgHook.HeaderAvoidsMarks | scripts/actions/changelog.mjs:357 | with well-marked labels, no header line already starts with its label's emoji |
| CommitMsgHook.HeaderLinePrefixed | scripts/actions/changelog.mjs:354-359 | every header line gets its type's emoji and one space in front |
| CommitMsgHook.HeaderAvoidsLeads | scripts/actions/changelog.mjs:356-358 | as written, a header line's lead (the label's first two code units) is not empty, opens with the label's first character, and is put with a space in front of the line |
| CommitMsgHook.RewriteLineIdempotent | scripts/actions/changelog.mjs:352-362 | rewriting a rewritten line changes nothing, both with the `slice(0, 2)` lead as written and with the whole emoji |
| CommitMsgHook.RewrittenSingleLine | scripts/actions/changelog.mjs:358 | a rewritten line holds no `\n` and no `\r` when the line holds none, in either reading |
| CommitMsgHook.RewriteKeepsLines | scripts/actions/changelog.mjs:350-364 | the rewritten message has one line for each line of the message, each rewritten, in the same order; stated of the hook as written (`RewriteMessageAsWritten`) and with the whole emoji |
| CommitMsgHook.NoHeaderUnchanged | scripts/actions/changelog.mjs:350-364 | a message without header lines is written back unchanged, in either reading |
| CommitMsgHook.RewriteMessageIdempotent | scripts/actions/changelog.mjs:350-364 | running the hook twice is running it once, as written and with the whole emoji |
| CommitMsgHook.MjsWellMarked | scripts/actions/changelog.mjs:11-29 | changelog.mjs's keys are words and each of its labels opens with an emoji |
| CommitMsgHook.MjsTypesAreWords | scripts/actions/changelog.mjs:12-28 | every key starts with a lower-case letter |
| CommitMsgHook.MjsLabelsOpenWithEmoji | scripts/actions/changelog.mjs:12-28 | every label starts with a character at or above U+2000 |
| CommitMsgHook.MjsRewriteIdempotent | scripts/actions/changelog.mjs:343-364 | with changelog.mjs's own map, a second run of the hook over its output changes nothing, as written and with the whole emoji |
| CommitMsgHook.NarrowEmojiDoubleSpace | scripts/actions/changelog.mjs:356-358 | as written, a one-unit emoji's lead takes the label's space too, so the line gets two spaces after the emoji; the whole emoji gives one |
| CommitMsgHook.NarrowLeads | scripts/actions/changelog.mjs:356 | for a one-unit emoji and a space, the first two code units are both, the emoji alone is the mark |
| CommitMsgHook.WideEmojiLosesSelector | scripts/actions/changelog.mjs:356-358 | as written, an emoji of two code units fills the slice, so the variation selector after it is lost; the whole emoji keeps it |
| CommitMsgHook.WideLeads | scripts/actions/changelog.mjs:356 | for a two-unit emoji with its selector, the first two code units are the emoji alone |
| CommitMsgHook.FeatDoubleSpace | scripts/actions/changelog.mjs:12 | a `feat` header gets `✨` and two spaces as written, `✨` and one space with the whole emoji |
| CommitMsgHook.FeatHeader | scripts/actions/changelog.mjs:12 | a `feat` header's type is `feat` and its label `✨ Features` |
| CommitMsgHook.BuildLosesSelector | scripts/actions/changelog.mjs:21 | the `build` label's first two code units are `🏗` without its selector, where its emoji is `🏗️` |

## Left out

- File system, `import()`, `git`, `process.env`, package.json and the clock are parameters. The file system is a tree of nodes, `import()` an oracle from path to module value or thrown error, and the runtime flags a `Flags` value. `git log`, `git tag` and `git config` appear as their output, or as `None` when the command fails; today's date is a string.
- `getCommitsBetween` (the `git log` call and the split of its lines on `|`) and `amendCommitWithChangelog` are command runners; the commits between two tags are a parameter.
- Console output, `Logger` formatting and the file writes of the scripts are not modelled. Log calls are recorded as lines with a level and arguments.
- The event emitter imported by `src/managers/Plugins.ts` is not part of this model. Emissions are appended to an event log.
- `Promise.all` fan-out is modelled in order. `Loader.PluginFinder` and `Loader.LoadPluginsFromDirectory` report the first failure in directory and listing order, where the source reports whichever import rejects first in time.
- `Plugins.PluginManager.Initiate` takes each plugin's outcome (resolves, rejects with a value, throws) from an oracle; what `run` does to the client is not modelled.
- `PluginManager.search` only delegates to `Loader.pluginFinder`, which is modelled.
- zod is modelled as predicates over JavaScript values. `Commands.Validate` reports the failing fields by name, not zod's issue objects.
- `BitField.resolve`, the Discord `Locale` enum and `Util.isClass`'s `Function.prototype.toString` test are parameters or abstract: a resolver function, a locale table and a field of function values.
- The Unicode property classes `Emoji_Presentation` and `Extended_Pictographic` in changelog.mjs's commit pattern (line 105, which has the `u` flag) are a predicate parameter, restricted to characters that are neither word characters nor white space.
- Strings are sequences of code points. `CommitMsgHook.UnitPrefix` counts UTF-16 code units but cannot produce a lone surrogate, so a cut through a surrogate pair is not modelled. No label of changelog.mjs is cut there.
- Commands.CheckString: zod's `.max(32)` and `.max(100)` count UTF-16 code units, and the model counts code points, so a name or description with characters outside the Basic Multilingual Plane can pass here and be refused by the source.
- Commands.Validate: inherits the code-point count of `Commands.CheckString` for the name, description and localisation lengths (and so do `Commands.Parse` and `Commands.ParseRecord`).
- CommitMsgHook.RewriteKeepsLines, CommitMsgHook.RewriteMessageIdempotent, CommitMsgHook.NoHeaderUnchanged and CommitMsgHook.MjsRewriteIdempotent are stated for messages without `\r`. The hook turns `\r\n` into `\n`, so a message with `\r\n` line ends is rewritten even when no line has a header.
- CommitMsgHook.HeaderType takes the keys of the type map as literal words; the source builds a regular expression from them, which is the same for the word keys the scripts use.
- The commit-msg branch of changelog.js (scripts/actions/changelog.js:274-291) is not modelled; it rewrites only the first line and uses `slice(0, 1)`, which cuts every emoji of two code units in half, and that lone surrogate is not representable here.
- `process.env.GITHUB_REPOSITORY_URL` (scripts/utils/github.js:7) is read and then always overwritten, so it has no effect on `getRepoUrl` and is not a parameter.
- Plugins.Plugin.constructor: validates and registers before it returns. The source runs the schema's `parseAsync` and registers in the `.then` that follows (src/structures/Plugin.ts:27-33), so registration happens after the constructor has returned. An error thrown by `register` there reaches the `.catch` and is logged as a warning (src/structures/Plugin.ts:34-37); the model does not state that path.
- Plugins.PluginManager.Initiate: runs a snapshot of the plugins taken when it starts, and its `ensures` keeps the collection unchanged. The source walks the live map iterator across its `await`s (src/managers/Plugins.ts:29), so a plugin registered while another runs is also run, and a name overwritten before its turn runs the new plugin. Registration during `initiate` is not modelled.
- Plugins.PluginManager.Register: emits the register error under the name `PluginRegisterError`, the corrected half of the first Findings row. As written the name is the undeclared enum member, `undefined` (Plugins.RegisterErrorUndeclared).
- Loader.ParsePath: drops empty and `.` segments but keeps `..`, where `path.join` resolves `..` against the segment before it (src/utils/loader.ts:74, 97, 100, 114). Paths with `..` are not normalised by the model.
- Loader.FileUrlToPath: does not percent-decode the path, where `fileURLToPath` (src/utils/loader.ts:110) turns `%20` and the like back into characters. It also leaves out what the URL parser does before that: trimming surrounding white space, reading `\` as `/`, resolving `.` and `..` segments, and lower-casing the host (so `LOCALHOST` is refused here).
- Loader.FileUrlRoundTrip: is stated for absolute paths without `?` or `#`. `fileURLToPath` ends the path at the first of those, so `file:///a?b` names `/a`, not `/a?b`; the lemma's query-or-fragment suffix states that case.
- Loader.FileUrlRemoteHost: is stated for hosts without `?` or `#`, which would end the URL's authority before the path.
- Loader.IsFileUrl: accepts every string that starts with `file:` in any case. `new URL` (src/utils/loader.ts:36) also refuses some of those, such as one with a malformed host, and `isFileURL` is then false.
- Commands.ParseRecord: a localisation key that is neither a locale name nor a locale value makes the record fail like any other bad field. In the source the key's transform throws a plain `Error` (src/utils/verifications/LocaleVerification.ts:8, 13), and zod passes that throw on instead of reporting an issue, so `validationSchema.parse` throws it.
- Commands.BadNameRefused: reports `Name` first only when no localisation key makes the record's transform throw; with such a key the source throws that `Error` and no list of fields comes back.
- Commands.CommandClass.Construct: reports the failing fields; when a localisation key is no locale, the source's `new Command` throws the transform's `Error` instead (src/structures/Command.ts:68). `Commands.Validate`, `Commands.Parse` and `Commands.CommandClass.SetDefaults` report fields in that case as well.
- Loader.DirectoryLoader: reports the first failure in listing order. Its `Promise.all` (src/utils/loader.ts:89) rejects with whichever entry fails first in time, which depends on import timing that is not modelled.
- Changelog.GroupEntries: groups commits by `TypeLabel`, the corrected half of the `changelog.js:184` Findings row. As written, a commit whose type is the name of an inherited property (`constructor`, `toString`, …) is grouped under that property's value and never written (Changelog.ConstructorCommitDropped, Changelog.EntryFiledAsWritten).
- Changelog.RenderSections: writes the sections of the corrected grouping, so a `constructor` commit appears under Chores where changelog.js drops it.
- Changelog.GenerateChangelog: its blocks use the corrected grouping; as written, commits with an inherited-property type are left out of every block.
- Changelog.LatestTagged: the newest version's sections use the corrected grouping, as in GenerateChangelog.
- Changelog.LatestWithLinks: the same corrected grouping in the latest body.
- LatestWithLinksOf: follows the corrected `flatMap` reading of scripts/actions/changelog.mjs:279. As written, that branch throws for any newest tag with at least one commit (ChangelogMjs.NewestCommitLost).
- The release and publish scripts, the updater, the client wrappers and the configuration files are not part of this model.

## Findings

| source | as written | input that shows it | evidently intended | confidence | as-written member | corrected member |
|---|---|---|---|---|---|---|
| src/managers/Plugins.ts:17 | emits `HyprEvents.PluginRegisterError`, which the enum in `src/libs/GlobalEvents.ts:2-7` does not declare, so the event name is `undefined` | `Plugins.register({})` | the register error goes out under the name `'PluginRegisterError'` | not executed | Plugins.RegisterErrorUndeclared | Plugins.EventName |
| scripts/actions/changelog.js:184 | `typeMap[commit.type]` also reads `Object.prototype`, so a type such as `constructor` gets a function instead of a label and its commit is in no section | a commit with subject `constructor: tidy up` | unknown types are filed under Chores | not executed | Changelog.ConstructorCommitDropped | Changelog.TypeLabel |
| scripts/actions/changelog.mjs:279 | `commits.map(parseCommit)` gives one array per commit, and `formatCommitLink(undefined)` then throws on `substring` | any newest tag with at least one commit | `commits.flatMap(parseCommit)`, as at lines 166, 201 and 244 | not executed | ChangelogMjs.NewestCommitLost | ChangelogMjs.LatestWithLinksOf |
| scripts/actions/changelog.mjs:113 | the pattern `/([\p{Emoji_Presentation}\p{Extended_Pictographic}])/g` has no `u` flag, so each `\p` is the letter `p` and the class is the characters of its own text; every matched type loses those letters (`feat` becomes `f`) and is filed under Chores | a commit with subject `feat: ✨` | the `u` flag, as on line 105: the replace removes emoji only, the word type stays as it is, and `feat` is filed under `✨ Features` | not executed | ChangelogMjs.FeatStrippedToF | ChangelogMjs.IntendedFeatUnderFeatures |
| scripts/actions/changelog.mjs:356 | `slice(0, 2)` takes two UTF-16 code units: a one-unit emoji keeps the label's space, so the line gets two spaces; a two-unit emoji loses its variation selector | `feat: add x` becomes `✨  feat: add x`; a `build:` line gets `🏗` without U+FE0F | the label's whole emoji and one space | not executed | CommitMsgHook.FeatDoubleSpace | CommitMsgHook.HeaderLinePrefixed |
