# Workspace file inclusion and database paths of react-electron-builder

This project models two pieces of the react-electron-builder template in Dafny and proves
properties of them.

**The packaging configuration** is in `electron-builder.ts`. `getListOfFilesFromEachWorkspace` walks the
workspace map in iteration order. For each member it reads the member's `package.json` and
takes its `files` value when that is truthy, or else the default `["dist/**", "package.json"]`.
It rewrites every pattern `p` to `join("node_modules", name, p)` and appends the rules to one
flat list. The default export puts that list into a fixed frame:

- `"LICENSE*"`, then the root manifest's `main`, then `"!node_modules/@app/**"`;
- then the workspace rules;
- then two `{from, to}` copy rules for `bindings` and `file-uri-to-path`.

It also declares one `extraResources` rule, which copies `resolve("packages/database/drizzle")`
to `drizzle`.

**The database path selection** is in `ApplicationDatabase.enable`. A packaged application uses
`database.sqlite` in the user-data directory and the `drizzle` directory in the resources
directory. A development tree uses `dev.sqlite` in the working directory and the repository's
`packages/database/drizzle`.

Modules:

- `Results`: the `Option` and `Result` wrappers.
- `PosixPath`: Node's POSIX `path.join`, `path.normalize` and `path.resolve`, defined so that
  they behave as Node's do. Node scans the characters once; here the path is split on `/` and
  the segments are walked with a stack. `..` pops
  the top, or is kept at the front of a relative path. A trailing `/` survives. An empty
  relative result is `.`, or `./` when the input ended in `/`; an empty absolute result is
  `/`. The module defines the normal form every normalised path is in, and proves that
  `normalize` and `join` land in it. It proves that plain paths join by plain concatenation,
  and what the last segment of a join is. It also covers two non-plain joins: an empty last
  argument leaves no trace (`PosixPath.JoinEmptyLast`), and a leading `../` climbs out of
  the preceding directory (`PosixPath.JoinParent`).
- `Blocks`: concatenating one block per element, where a block may fail and the first failure
  aborts. Proved: the append law, the total length, where each block sits, and which error wins.
- `ElectronBuilder`: the data model and the resolver. `ListOfFilesFromEachWorkspace` is the
  imperative loop, proved equal to the function `WorkspaceRules`. `BuildConfiguration` is the
  default export.
- `WorkspaceProperties`: what the resolver guarantees. This covers default versus declared
  patterns, the shape of a rewritten rule, and that for plain patterns no rule of one package
  lands under another package's directory. It also covers when a package keeps its own
  manifest, and the layout of `files`.
- `DatabaseModule`: the path selection and how it meets the `extraResources` rule.

The inputs of the model are:

- the workspace map, as a sequence in iteration order;
- for each member, what reading and parsing its manifest produced (`Unreadable`,
  `Unparsable`, or the parsed `files` value);
- the root manifest's `main`;
- the working directory;
- `isPackaged`, the user-data directory and the resources directory.

A `files` value is modelled as a JSON value (missing, `null`, boolean, number, string, array,
object), so that the `||` at electron-builder.ts:127 follows JavaScript truthiness exactly. A
truthy value that is not an array makes `.map` throw. The source catches none of its
exceptions, so each one aborts the whole build. The model returns it as an error.

Three points where the model follows the code rather than a description of it:

- An empty `files` array is truthy in JavaScript, so it replaces the default, and that
  package contributes no rule at all. The model does the same
  (`WorkspaceProperties.DeclaredPatternsReplaceDefault`). A reading in which a non-empty list
  is needed to override the default, or in which every package contributes at least one rule,
  does not match electron-builder.ts:127.
- The doc comment at electron-builder.ts:87-105 says that a package declaring `["dist/**/"]`
  keeps its dist files and its `package.json`. The rules produced keep `package.json` only
  through the default, or when the declared list names it
  (`WorkspaceProperties.ManifestRuleKept`). The comment's own example pattern `"dist/**/"`
  drops it: its one rule ends in a slash, which the manifest rule does not
  (`WorkspaceProperties.DeclaredDistOnlyDropsManifest`). Whether electron-builder adds the
  manifest back on its own is outside the code shown.
- A declared pattern is joined, and so normalised, not appended as it is
  (electron-builder.ts:128). An empty pattern vanishes, and its rule names the package's whole
  install directory `node_modules/<name>`
  (`WorkspaceProperties.EmptyPatternKeepsPackageDir`). A pattern starting with `../` climbs out
  of the package: `"../preload/dist/**"` declared by `@app/main` becomes
  `node_modules/@app/preload/dist/**`, a rule under another member's directory
  (`WorkspaceProperties.ParentPatternLeavesPackage`).

Every operation is a function of its inputs, or a method proved equal to one. So equal inputs
give equal rule lists and equal configurations by construction.

## Model

| member | source | states |
|---|---|---|
| ElectronBuilder.ChosenPatterns | electron-builder.ts:123-128 | The fallback to the default patterns and its throws: an unreadable or unparsable manifest, or a truthy `files` that is not an array, is an error. A falsy `files` gives the default patterns. An array, the empty one included, is used as it is. |
| ElectronBuilder.PackageRules | electron-builder.ts:123-128 | One loop iteration: a member's block fails exactly when its pattern choice does, with the same error. Otherwise it has one rule per chosen pattern, in order, rule i being `join("node_modules", name, p_i)`. |
| ElectronBuilder.WorkspaceRules | electron-builder.ts:120-132 | The whole walk: the list is built iff every member's block is, and its length is then the sum of the block lengths. When it fails, its error is that of the first failing member, and every earlier member succeeds. |
| ElectronBuilder.Rewrite | electron-builder.ts:128 | Each pattern yields exactly one rule, in the same order, and rule i is `join("node_modules", name, patterns[i])`. |
| ElectronBuilder.ListOfFilesFromEachWorkspace | electron-builder.ts:114-133 | The loop over the workspace map returns exactly `WorkspaceRules`: each member's block in map order, or the error of the first member whose manifest cannot be read or parsed or whose `files` cannot be mapped. |
| ElectronBuilder.BuildConfiguration | electron-builder.ts:12-54 | The configuration is built iff the workspace rules are, and otherwise it carries their error. `files` has five entries more than there are rules: `"LICENSE*"`, then `main` (or undefined), then `"!node_modules/@app/**"`, then every workspace rule in order, then the two copy rules. `extraResources` is the single rule from `resolve(cwd, "packages/database/drizzle")` to `drizzle`. |
| Blocks.ConcatSize | electron-builder.ts:120-132 | The flat list is produced iff every member's block is, and its length is then the sum of the block lengths. |
| Blocks.BlockPlacement | electron-builder.ts:122-130 | Member k's block appears whole and in order in the flat list. It starts right after the blocks of the members before k, so blocks never interleave. |
| Blocks.ConcatAppend | electron-builder.ts:122-130 | The rules of two consecutive stretches of members are the rules of the first followed by those of the second, and the first error met aborts. |
| Blocks.FirstErrorWins | electron-builder.ts:122-128 | When the list cannot be built, the error is that of the first member whose block fails, and every earlier member succeeds. |
| Blocks.PrefixErrorAborts | electron-builder.ts:122-128 | An error among the first k members is the error of the whole walk; later members are never looked at. |
| PosixPath.Normalize | electron-builder.ts:128 | The normalisation `path.join` applies. The result is in normal form: it is never empty; between the root slash and a closing slash no segment is empty; no segment after the first is `.`; an absolute result has no `..`, and a relative one has them only as a leading run; `.` appears only as the whole path `.` or `./`. An absolute path stays absolute, and a trailing `/` is kept. |
| PosixPath.Join | electron-builder.ts:128 | `path.join` returns a path in that normal form. It is absolute when its first argument is, and ends in `/` when its last argument does. |
| PosixPath.JoinEmptyLast | electron-builder.ts:128 | An empty last argument adds nothing: for plain `a` and `b`, `join(a, b, "")` is `a/b`. |
| PosixPath.JoinParent | electron-builder.ts:128 | A last argument `../q` removes the last segment of the second: for plain pieces, `join(root, scope/pkg, ../q)` is `root/scope/q`. |
| PosixPath.Resolve | electron-builder.ts:23 | `path.resolve` never returns an empty string. It is absolute when the working directory or the argument is, and it ends in `/` only when it is the root itself. |
| PosixPath.JoinPlain3 | electron-builder.ts:128 | For three plain paths, `join(a, b, c)` is `a + "/" + b + "/" + c`; normalisation changes nothing. |
| PosixPath.NormalizePlain | electron-builder.ts:128 | Normalising a plain path returns it unchanged. |
| PosixPath.JoinFileName | packages/main/src/modules/DatabaseModule.ts:17 | The last segment of `join(dir, name)` is `name` for a plain file name, and the result is absolute when `dir` is. |
| PosixPath.ResolvePlain | packages/main/src/modules/DatabaseModule.ts:23 | Resolving a plain relative path against an absolute working directory gives an absolute path ending in `"/" + rel`. |
| WorkspaceProperties.EmptyPatternKeepsPackageDir | electron-builder.ts:128 | For a plain name, the empty pattern is rewritten to `node_modules/<name>`, the package's whole install directory. |
| WorkspaceProperties.ParentPatternLeavesPackage | electron-builder.ts:128 | For plain segments, the pattern `../other/rest` declared by `scope/pkg` is rewritten to `node_modules/scope/other/` followed by `rest`, under the install directory of the sibling package `scope/other`. |
| WorkspaceProperties.RewritePlain | electron-builder.ts:128 | With a plain name and pattern, the rule is `"node_modules/" + name + "/" + p`. |
| WorkspaceProperties.DefaultFallback | electron-builder.ts:127-128 | A member whose `files` is absent or falsy gets exactly `[join("node_modules", name, "dist/**"), join("node_modules", name, "package.json")]`, which for a plain name is `node_modules/<name>/dist/**` and `node_modules/<name>/package.json`. |
| WorkspaceProperties.DeclaredPatternsReplaceDefault | electron-builder.ts:127-128 | A member whose `files` is an array, the empty one included, gets one rule per declared pattern and no default rule. For plain patterns, rule i is `node_modules/<name>/` followed by pattern i. |
| WorkspaceProperties.MemberErrors | electron-builder.ts:123-128 | A member fails iff its manifest is unreadable or unparsable, or its `files` is truthy but not an array. Only the read error names a path, `join(path, "package.json")`, as the exception of `readFileSync` does; the parse error and the `.map` error name neither file nor member. |
| WorkspaceProperties.ManifestRuleKept | electron-builder.ts:127-128 | A member's rule for its own `package.json` is in its block iff its `files` is falsy or names `package.json`. |
| WorkspaceProperties.DeclaredDistOnlyDropsManifest | electron-builder.ts:127-128 | A member declaring only `"dist/**/"`, the pattern of the doc comment at lines 87-95, gets the one rule `join("node_modules", name, "dist/**/")` and no rule for its `package.json`, contrary to the comment at lines 97-105. |
| WorkspaceProperties.BlockUnderInstallPrefix | electron-builder.ts:128 | With plain name and patterns, every rule of a member's block starts with `node_modules/<name>/`. |
| WorkspaceProperties.NoForeignPrefix | electron-builder.ts:128 | For a plain name and a plain pattern, a rule rewritten under that name never starts with the install directory of a name whose segments are disjoint from it. |
| WorkspaceProperties.NpmNamesDisjoint | electron-builder.ts:122 | Two different npm package names, plain or scoped, have disjoint segments. |
| WorkspaceProperties.BlockAttributed | electron-builder.ts:127-128 | For npm-shaped names and plain chosen patterns, every rule of a member's block lies under that member's install directory and under no other npm name's. |
| WorkspaceProperties.RulesAttributed | electron-builder.ts:122-130 | Every rule in member k's stretch of the flat list lies under `node_modules/<k>/` and not under the directory of any member j with a different name. |
| WorkspaceProperties.TwoMemberScenario | electron-builder.ts:122-130 | Member a declares `["build/**"]` and member b declares nothing. The list is a's one rule followed by b's two default rules. |
| WorkspaceProperties.SinglePatternBlock | electron-builder.ts:127-128 | A member declaring exactly one plain pattern contributes exactly that pattern, moved under its install directory. |
| WorkspaceProperties.CopyEntriesKeepPlace | electron-builder.ts:33-52 | Every `{from, to}` entry of `files` has `from == to`, and the copy entries are exactly the last two. |
| DatabaseModule.DatabasePaths | packages/main/src/modules/DatabaseModule.ts:15-24 | The database file's last segment is `database.sqlite` in a packaged build and `dev.sqlite` in a development tree. The packaged migrations directory's last segment is `drizzle`. |
| DatabaseModule.Enable | packages/main/src/modules/DatabaseModule.ts:12-25 | Both cases of the switch assign both paths, and the pair is the one `DatabasePaths` selects. |
| DatabaseModule.PackagedPaths | packages/main/src/modules/DatabaseModule.ts:16-18 | Packaged: the database file is named `database.sqlite`, and it is absolute when the user-data directory is. The migrations directory is `join(resourcesPath, to)` for the `to` of the configuration's `extraResources` rule, and is named by it. |
| DatabaseModule.DevPaths | packages/main/src/modules/DatabaseModule.ts:21-23 | Development, with an absolute working directory: the database file is an absolute path named `dev.sqlite`. The migrations directory is absolute, ends in `/packages/database/drizzle`, and equals the `from` of the `extraResources` rule of a build run from the same directory. |
| DatabaseModule.ModesUseDifferentFiles | packages/main/src/modules/DatabaseModule.ts:15-24 | A packaged application and a development tree never use the same database file. |

## Left out

- Reading and parsing the manifests, `mapWorkspaces` and `process.cwd()` (electron-builder.ts:7-9, 115-125). This is file-system I/O and a foreign library, so their results are inputs.
- A member's `files` array holding something other than strings (then `join` throws). Patterns are modelled as strings only.
- A member manifest whose top-level JSON value is `null` (then reading `.files` throws). A parsed manifest is modelled as an object.
- A root manifest whose `main` is not a string. `main` is a string or absent.
- Rounding of JSON numbers to doubles. A number in `files` matters only through its truthiness.
- Glob matching and electron-builder's rule evaluation, where later rules override earlier ones. They belong to the packager, which is not part of this model. So the model speaks of the rules produced, not of the files that end up in the bundle.
- The constant configuration fields `directories`, `artifactName`, `linux.target` and `generateUpdatesFilesForAllChannels`. They are literals with no logic.
- `connectDatabase` (packages/database/src/index.ts), the log line and the `await`. These are foreign calls and output. The model stops at the pair of paths handed over.
- `createDatabaseModule`. It only constructs the module object.
- The schema files, packages/database/src/schema-helpers.ts and packages/database/src/schema/projects.ts. They are declarative table builders.
- packages/renderer/src/main.tsx. It is UI bootstrap.
- Windows path separators. Only POSIX joining is modelled.
- WorkspaceProperties.ManifestRuleKept: stated for a plain name and plain patterns only. A pattern such as `./package.json` also normalises to the manifest rule and is not covered.
- WorkspaceProperties.DeclaredPatternsReplaceDefault: the element-wise form `node_modules/<name>/p` is stated for plain patterns only. For other patterns the rule is the normalised join.
- WorkspaceProperties.RulesAttributed: stated for members whose names have the npm shape and whose chosen patterns are plain. A pattern with `..` can climb out of its package's directory.
- PosixPath.Resolve: `path.resolve` takes the working directory as a parameter. A relative working directory, which Node never has, is not given special treatment.
