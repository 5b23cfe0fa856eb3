/**
  The packaging configuration of electron-builder.ts: the per-package inclusion rules gathered
  from the workspace members, and the `files` / `extraResources` lists built around them.

  The workspace map, the member manifests and the root manifest are read from disk by the
  source; here they are inputs. The workspace map is a sequence of entries in the map's
  iteration order, each carrying what reading and parsing its manifest produced.
*/
module ElectronBuilder {
  import opened Results
  import opened PosixPath
  import opened Blocks

  // ---------------------------------------------------------------------------------------
  // Data model
  // ---------------------------------------------------------------------------------------

  /** The `files` field of a parsed member manifest, as far as `||` and `.map` tell its
      values apart. `Missing` is a manifest without the field. */
  datatype FilesValue =
    | Missing
    | Null
    | Bool(b: bool)
    | Number(n: real)
    | Str(s: string)
    | Array(patterns: seq<string>)
    | Object

  /** What reading and parsing a member's package.json produced. */
  datatype Manifest =
    | Unreadable
    | Unparsable
    | Parsed(files: FilesValue)

  /** One entry of the workspace map: package name, package directory, and its manifest. */
  datatype Workspace = Workspace(name: string, path: string, manifest: Manifest)

  /** The exceptions that abort building the configuration. */
  datatype BuildError =
    | ManifestUnreadable(pkgPath: string)   // readFileSync throws, naming the file
    | ManifestUnparsable                    // JSON.parse throws a syntax error naming no file
    | FilesNotAnArray                       // `.map` on a truthy non-array throws a type error naming no member

  /** A `{from, to}` copy rule. */
  datatype CopyRule = CopyRule(from: string, to: string)

  /** An element of the `files` array: a glob, a copy rule, or `undefined` (the root
      manifest's `main` when it has none). */
  datatype FileEntry = Pattern(glob: string) | Copy(rule: CopyRule) | Undefined

  /** The part of the exported configuration that is computed; its other fields are constants. */
  datatype Configuration = Configuration(extraResources: seq<CopyRule>, files: seq<FileEntry>)

  const ManifestFileName := "package.json"
  const InstallRoot := "node_modules"
  const DefaultPatterns: seq<string> := ["dist/**", ManifestFileName]
  const LicensePattern := "LICENSE*"
  const AppScopeExclusion := "!node_modules/@app/**"
  const BindingsDir := "node_modules/bindings"
  const FileUriToPathDir := "node_modules/file-uri-to-path"
  const MigrationsSource := "packages/database/drizzle"
  const MigrationsDestination := "drizzle"

  // ---------------------------------------------------------------------------------------
  // The per-package resolver
  // ---------------------------------------------------------------------------------------

  /** JavaScript truthiness of a `files` value. */
  predicate Truthy(v: FilesValue)
  {
    match v
    case Missing => false
    case Null => false
    case Bool(b) => b
    case Number(n) => n != 0.0
    case Str(s) => s != ""
    case Array(_) => true
    case Object => true
  }

  /** `join(path, "package.json")`: where a member's manifest is read from. */
  function ManifestPath(w: Workspace): string
  {
    Join([w.path, ManifestFileName])
  }

  /** `workspacePkg.files` when truthy, else the default patterns, with the errors of reading the
      manifest and of calling `.map` on a value that is not an array. */
  function ChosenPatterns(w: Workspace): (r: Result<seq<string>, BuildError>)
    ensures r.Err? <==> !w.manifest.Parsed? || (Truthy(w.manifest.files) && !w.manifest.files.Array?)
    ensures w.manifest.Parsed? && !Truthy(w.manifest.files) ==> r == Ok(DefaultPatterns)
    ensures w.manifest.Parsed? && w.manifest.files.Array? ==> r == Ok(w.manifest.files.patterns)
  {
    match w.manifest
    case Unreadable => Err(ManifestUnreadable(ManifestPath(w)))
    case Unparsable => Err(ManifestUnparsable)
    case Parsed(files) =>
      if !Truthy(files) then Ok(DefaultPatterns)
      else if files.Array? then Ok(files.patterns)
      else Err(FilesNotAnArray)
  }

  /** `join("node_modules", name, p)`: a package-relative pattern moved to where the package
      is installed inside the bundle. */
  function RewritePattern(name: string, p: string): string
  {
    Join([InstallRoot, name, p])
  }

  /** `patterns.map(p => join("node_modules", name, p))`: one rule per pattern, in order. */
  function Rewrite(name: string, patterns: seq<string>): (rules: seq<string>)
    ensures |rules| == |patterns|
    ensures forall i | 0 <= i < |patterns| :: rules[i] == RewritePattern(name, patterns[i])
  {
    if patterns == [] then []
    else [RewritePattern(name, patterns[0])] + Rewrite(name, patterns[1..])
  }

  /** The block of rules one workspace member contributes. */
  function PackageRules(w: Workspace): (r: Result<seq<string>, BuildError>)
    ensures r.Ok? <==> ChosenPatterns(w).Ok?
    ensures r.Err? ==> r.error == ChosenPatterns(w).error
    ensures r.Ok? ==>
      var patterns := ChosenPatterns(w).value;
      && |r.value| == |patterns|
      && forall i | 0 <= i < |patterns| :: r.value[i] == RewritePattern(w.name, patterns[i])
  {
    var patterns :- ChosenPatterns(w);
    Ok(Rewrite(w.name, patterns))
  }

  /** The blocks of all members, concatenated in map order; the first member that throws
      aborts the whole list. */
  function WorkspaceRules(workspaces: seq<Workspace>): (r: Result<seq<string>, BuildError>)
    ensures r.Ok? <==> forall k | 0 <= k < |workspaces| :: PackageRules(workspaces[k]).Ok?
    ensures r.Ok? ==> |r.value| == TotalSize(workspaces, PackageRules)
    ensures r.Err? ==> exists k | 0 <= k < |workspaces| ::
      PackageRules(workspaces[k]) == r && forall j | 0 <= j < k :: PackageRules(workspaces[j]).Ok?
  {
    ConcatSize(workspaces, PackageRules);
    var all := ConcatBlocks(workspaces, PackageRules);
    if all.Err? then FirstErrorWins(workspaces, PackageRules); all else all
  }

  /** getListOfFilesFromEachWorkspace: walk the workspace map, choose each member's patterns,
      rewrite them under node_modules/<name>, and append them to one list. */
  method ListOfFilesFromEachWorkspace(workspaces: seq<Workspace>)
    returns (r: Result<seq<string>, BuildError>)
    ensures r == WorkspaceRules(workspaces)
  {
    var allFilesToInclude: seq<string> := [];
    for i := 0 to |workspaces|
      invariant WorkspaceRules(workspaces[..i]) == Ok(allFilesToInclude)
    {
      var w := workspaces[i];
      assert workspaces[..i + 1][..i] == workspaces[..i];
      var pkgPath := Join([w.path, ManifestFileName]);
      var files: FilesValue;
      match w.manifest {
        case Unreadable =>
          PrefixErrorAborts(workspaces, PackageRules, i + 1);
          return Err(ManifestUnreadable(pkgPath));
        case Unparsable =>
          PrefixErrorAborts(workspaces, PackageRules, i + 1);
          return Err(ManifestUnparsable);
        case Parsed(f) =>
          files := f;
      }
      var patterns: seq<string>;
      if !Truthy(files) {
        patterns := DefaultPatterns;
      } else if files.Array? {
        patterns := files.patterns;
      } else {
        PrefixErrorAborts(workspaces, PackageRules, i + 1);
        return Err(FilesNotAnArray);
      }
      patterns := Rewrite(w.name, patterns);
      allFilesToInclude := allFilesToInclude + patterns;
    }
    assert workspaces[..|workspaces|] == workspaces;
    r := Ok(allFilesToInclude);
  }

  // ---------------------------------------------------------------------------------------
  // The exported configuration
  // ---------------------------------------------------------------------------------------

  /** The slot of the root manifest's `main` in the `files` array. */
  function MainEntry(main: Option<string>): FileEntry
  {
    match main
    case Some(m) => Pattern(m)
    case None => Undefined
  }

  /** The copy rules for the native-module support packages that close the `files` array. */
  function NativeSupportCopies(): seq<FileEntry>
  {
    [Copy(CopyRule(BindingsDir, BindingsDir)), Copy(CopyRule(FileUriToPathDir, FileUriToPathDir))]
  }

  /** The default export, for a build run from `cwd` whose root manifest has entry point
      `main`. */
  function BuildConfiguration(cwd: string, main: Option<string>, workspaces: seq<Workspace>)
    : (r: Result<Configuration, BuildError>)
    ensures r.Ok? <==> WorkspaceRules(workspaces).Ok?
    ensures r.Err? ==> r.error == WorkspaceRules(workspaces).error
    ensures r.Ok? ==>
      var rules := WorkspaceRules(workspaces).value;
      var files := r.value.files;
      && |files| == |rules| + 5
      && files[0] == Pattern(LicensePattern)
      && files[1] == MainEntry(main)
      && files[2] == Pattern(AppScopeExclusion)
      && (forall i | 0 <= i < |rules| :: files[3 + i] == Pattern(rules[i]))
      && files[|rules| + 3] == Copy(CopyRule(BindingsDir, BindingsDir))
      && files[|rules| + 4] == Copy(CopyRule(FileUriToPathDir, FileUriToPathDir))
    ensures r.Ok? ==>
      r.value.extraResources == [CopyRule(Resolve(cwd, MigrationsSource), MigrationsDestination)]
  {
    var workspaceFiles :- WorkspaceRules(workspaces);
    var globs := seq(|workspaceFiles|, i requires 0 <= i < |workspaceFiles| => Pattern(workspaceFiles[i]));
    Ok(Configuration(
      [CopyRule(Resolve(cwd, MigrationsSource), MigrationsDestination)],
      [Pattern(LicensePattern), MainEntry(main), Pattern(AppScopeExclusion)] + globs + NativeSupportCopies()))
  }
}
