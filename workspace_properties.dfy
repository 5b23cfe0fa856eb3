/**
  What the workspace resolver of electron-builder.ts guarantees: default versus declared
  patterns, the shape of each rewritten rule, the placement of each member's block in the
  flat list, and the layout of the exported `files` array.
*/
module WorkspaceProperties {
  import opened Results
  import opened PosixPath
  import opened Blocks
  import opened ElectronBuilder

  /** Every pattern of the list is a plain relative path. */
  predicate PlainPatterns(patterns: seq<string>)
  {
    forall i | 0 <= i < |patterns| :: PlainPath(patterns[i])
  }

  /** The directory a package is installed in inside the bundle, with its closing slash. */
  function InstallPrefix(name: string): string
  {
    InstallRoot + "/" + name + "/"
  }

  /** The rule that keeps a package's own manifest. */
  function ManifestRule(name: string): string
  {
    RewritePattern(name, ManifestFileName)
  }

  /** Neither name's segments start the other's: "@app/main" and "@app/preload" are
      disjoint, "@app" and "@app/main" are not. */
  predicate SegmentDisjoint(a: string, b: string)
  {
    !(Split(a) <= Split(b)) && !(Split(b) <= Split(a))
  }

  /** The shape of an npm package name: one plain segment not starting with '@', or a scope
      segment starting with '@' followed by one plain segment. */
  predicate NpmName(name: string)
  {
    var segs := Split(name);
    AllPlain(segs) &&
    ((|segs| == 1 && segs[0][0] != '@') || (|segs| == 2 && segs[0][0] == '@'))
  }

  // ---------------------------------------------------------------------------------------
  // One member
  // ---------------------------------------------------------------------------------------

  /** The install root is a plain path. */
  lemma InstallRootPlain()
    ensures PlainPath(InstallRoot)
  {
    SplitSingle(InstallRoot);
  }

  /** The first default pattern is a plain path. */
  lemma DistPatternPlain()
    ensures PlainPath(DefaultPatterns[0])
  {
    assert DefaultPatterns[0] == "dist" + "/" + "**";
    SplitConcat("dist", "**");
    SplitSingle("dist");
    SplitSingle("**");
  }

  /** The manifest file name is a plain path. */
  lemma ManifestFileNamePlain()
    ensures PlainPath(ManifestFileName)
  {
    SplitSingle(ManifestFileName);
  }

  /** With plain pieces, `join("node_modules", name, p)` is plain concatenation. */
  lemma RewritePlain(name: string, p: string)
    requires PlainPath(name) && PlainPath(p)
    ensures RewritePattern(name, p) == InstallPrefix(name) + p
  {
    InstallRootPlain();
    JoinPlain3(InstallRoot, name, p);
  }

  /** A member whose `files` is absent or falsy gets exactly the two default rules. */
  lemma DefaultFallback(w: Workspace)
    requires w.manifest.Parsed? && !Truthy(w.manifest.files)
    ensures PackageRules(w) == Ok([RewritePattern(w.name, "dist/**"), ManifestRule(w.name)])
    ensures PlainPath(w.name) ==>
      PackageRules(w) == Ok([InstallPrefix(w.name) + "dist/**", InstallPrefix(w.name) + ManifestFileName])
  {
    var block := Rewrite(w.name, DefaultPatterns);
    assert block == [RewritePattern(w.name, "dist/**"), ManifestRule(w.name)];
    if PlainPath(w.name) {
      DistPatternPlain();
      ManifestFileNamePlain();
      RewritePlain(w.name, DefaultPatterns[0]);
      RewritePlain(w.name, DefaultPatterns[1]);
    }
  }

  /** A member whose `files` is an array (the empty one included) gets one rule per declared
      pattern, in order, and none of the default ones: an empty array yields no rule. */
  lemma DeclaredPatternsReplaceDefault(w: Workspace)
    requires w.manifest.Parsed? && w.manifest.files.Array?
    ensures PackageRules(w).Ok?
    ensures |PackageRules(w).value| == |w.manifest.files.patterns|
    ensures PlainPath(w.name) && PlainPatterns(w.manifest.files.patterns) ==>
      var patterns := w.manifest.files.patterns;
      forall i | 0 <= i < |patterns| :: PackageRules(w).value[i] == InstallPrefix(w.name) + patterns[i]
  {
    var patterns := w.manifest.files.patterns;
    if PlainPath(w.name) && PlainPatterns(patterns) {
      forall i | 0 <= i < |patterns|
        ensures PackageRules(w).value[i] == InstallPrefix(w.name) + patterns[i]
      {
        RewritePlain(w.name, patterns[i]);
      }
    }
  }

  /** A member fails exactly when reading its manifest, parsing it, or mapping over its
      `files` throws; only the read error names a path, the manifest's. */
  lemma MemberErrors(w: Workspace)
    ensures PackageRules(w).Err? <==>
      !w.manifest.Parsed? || (Truthy(w.manifest.files) && !w.manifest.files.Array?)
    ensures w.manifest.Unreadable? ==> PackageRules(w) == Err(ManifestUnreadable(Join([w.path, ManifestFileName])))
    ensures w.manifest.Unparsable? ==> PackageRules(w) == Err(ManifestUnparsable)
    ensures w.manifest.Parsed? && Truthy(w.manifest.files) && !w.manifest.files.Array? ==>
      PackageRules(w) == Err(FilesNotAnArray)
  {
  }

  /** The member's manifest is kept exactly when its `files` is falsy or names
      "package.json"; a declared list that leaves it out drops it. */
  lemma ManifestRuleKept(w: Workspace)
    requires PlainPath(w.name)
    requires w.manifest.Parsed?
    requires w.manifest.files.Array? ==> PlainPatterns(w.manifest.files.patterns)
    requires PackageRules(w).Ok?
    ensures ManifestRule(w.name) in PackageRules(w).value <==>
      !Truthy(w.manifest.files) || ManifestFileName in w.manifest.files.patterns
  {
    var files := w.manifest.files;
    if !Truthy(files) {
      DefaultFallback(w);
    } else {
      var patterns := files.patterns;
      var block := PackageRules(w).value;
      ManifestFileNamePlain();
      RewritePlain(w.name, ManifestFileName);
      var prefix := InstallPrefix(w.name);
      forall i | 0 <= i < |patterns|
        ensures block[i] == ManifestRule(w.name) <==> patterns[i] == ManifestFileName
      {
        RewritePlain(w.name, patterns[i]);
        if block[i] == ManifestRule(w.name) {
          assert (prefix + patterns[i])[|prefix|..] == patterns[i];
          assert (prefix + ManifestFileName)[|prefix|..] == ManifestFileName;
        }
      }
    }
  }

  /** A package that declares only its dist directory with a closing slash, as in the doc
      comment of getListOfFilesFromEachWorkspace, keeps no rule for its own package.json:
      its one rule ends in a slash and the manifest rule does not. */
  lemma DeclaredDistOnlyDropsManifest(w: Workspace)
    requires w.manifest == Parsed(Array(["dist/**/"]))
    requires PlainPath(w.name)
    ensures PackageRules(w) == Ok([RewritePattern(w.name, "dist/**/")])
    ensures ManifestRule(w.name) !in PackageRules(w).value
  {
    var block := PackageRules(w).value;
    assert block == [block[0]];
    var rule := RewritePattern(w.name, "dist/**/");
    assert rule[|rule| - 1] == '/';
    ManifestFileNamePlain();
    RewritePlain(w.name, ManifestFileName);
    var manifest := ManifestRule(w.name);
    assert manifest[|manifest| - 1] == 'n';
  }

  /** An empty declared pattern is normalised away: the rule is the whole install directory
      of the package, with every file in it. */
  lemma EmptyPatternKeepsPackageDir(name: string)
    requires PlainPath(name)
    ensures RewritePattern(name, "") == InstallRoot + "/" + name
  {
    InstallRootPlain();
    JoinEmptyLast(InstallRoot, name);
  }

  /** A declared pattern starting with "../" is not kept under the package: for a scoped
      package it climbs into the directory of a sibling package of the same scope. */
  lemma ParentPatternLeavesPackage(scope: string, pkg: string, other: string, rest: string)
    requires PlainSegment(scope) && PlainSegment(pkg) && PlainSegment(other) && PlainPath(rest)
    ensures RewritePattern(scope + "/" + pkg, "../" + other + "/" + rest) ==
      InstallPrefix(scope + "/" + other) + rest
  {
    assert PlainSegment(InstallRoot);
    JoinSibling(InstallRoot, scope, pkg, other, rest);
  }

  /** With a plain name and plain patterns every rule of a member's block lies under that
      member's install directory. */
  lemma BlockUnderInstallPrefix(w: Workspace)
    requires PackageRules(w).Ok?
    requires PlainPath(w.name) && PlainPatterns(ChosenPatterns(w).value)
    ensures forall i | 0 <= i < |PackageRules(w).value| :: InstallPrefix(w.name) <= PackageRules(w).value[i]
  {
    var patterns := ChosenPatterns(w).value;
    forall i | 0 <= i < |patterns|
      ensures InstallPrefix(w.name) <= PackageRules(w).value[i]
    {
      RewritePlain(w.name, patterns[i]);
    }
  }

  /** The segments of a path under a package's install directory. */
  lemma SplitUnderInstallPrefix(name: string, rest: string)
    ensures Split(InstallPrefix(name) + rest) == [InstallRoot] + (Split(name) + Split(rest))
  {
    assert InstallPrefix(name) + rest == InstallRoot + "/" + (name + "/" + rest);
    SplitConcat(InstallRoot, name + "/" + rest);
    SplitConcat(name, rest);
    SplitSingle(InstallRoot);
  }

  /** Of two lists that start two equal concatenations, one starts the other. */
  lemma CommonStart<T>(a: seq<T>, x: seq<T>, b: seq<T>, y: seq<T>)
    requires a + x == b + y
    ensures a <= b || b <= a
  {
    if |a| <= |b| {
      assert (a + x)[..|a|] == a;
      assert (b + y)[..|a|] == b[..|a|];
    } else {
      assert (a + x)[..|b|] == a[..|b|];
      assert (b + y)[..|b|] == b;
    }
  }

  /** A path under one package's install directory is under no other install directory
      whose name's segments are disjoint from the first. */
  lemma DisjointInstallPrefixes(name: string, other: string, p: string)
    requires SegmentDisjoint(name, other)
    ensures !(InstallPrefix(other) <= InstallPrefix(name) + p)
  {
    var rule := InstallPrefix(name) + p;
    var pre := InstallPrefix(other);
    if pre <= rule {
      var rest := rule[|pre|..];
      assert pre + rest == rule;
      SharedInstallPath(name, p, other, rest);
    }
  }

  /** When two paths under install directories coincide, one name's segments start the
      other's. */
  lemma SharedInstallPath(name: string, p: string, other: string, rest: string)
    requires InstallPrefix(other) + rest == InstallPrefix(name) + p
    ensures Split(name) <= Split(other) || Split(other) <= Split(name)
  {
    var a, b := Split(name), Split(other);
    SplitUnderInstallPrefix(name, p);
    SplitUnderInstallPrefix(other, rest);
    DropHead(InstallRoot, a + Split(p), b + Split(rest));
    CommonStart(a, Split(p), b, Split(rest));
  }

  /** Two lists that agree after the same first element agree. */
  lemma DropHead<T>(h: T, u: seq<T>, v: seq<T>)
    requires [h] + u == [h] + v
    ensures u == v
  {
    assert ([h] + u)[1..] == u;
    assert ([h] + v)[1..] == v;
  }

  /** A rule rewritten under one name never lies under the install directory of a name whose
      segments are disjoint from it. */
  lemma NoForeignPrefix(name: string, other: string, p: string)
    requires PlainPath(name) && PlainPath(p)
    requires SegmentDisjoint(name, other)
    ensures !(InstallPrefix(other) <= RewritePattern(name, p))
  {
    RewritePlain(name, p);
    DisjointInstallPrefixes(name, other, p);
  }

  /** Two different npm package names have disjoint segments. */
  lemma NpmNamesDisjoint(a: string, b: string)
    requires NpmName(a) && NpmName(b) && a != b
    ensures SegmentDisjoint(a, b)
  {
    var sa, sb := Split(a), Split(b);
    if sa == sb {
      SplitInjective(a, b);
    }
  }

  // ---------------------------------------------------------------------------------------
  // The whole inventory
  // ---------------------------------------------------------------------------------------

  /** Every rule of a member's block lies under that member's install directory and under
      no other npm name's, when the member's patterns are plain. */
  lemma BlockAttributed(w: Workspace, other: string)
    requires PackageRules(w).Ok?
    requires NpmName(w.name) && NpmName(other) && other != w.name
    requires PlainPatterns(ChosenPatterns(w).value)
    ensures forall r | r in PackageRules(w).value ::
      InstallPrefix(w.name) <= r && !(InstallPrefix(other) <= r)
  {
    var patterns := ChosenPatterns(w).value;
    var block := PackageRules(w).value;
    NpmNamesDisjoint(w.name, other);
    forall i | 0 <= i < |block|
      ensures InstallPrefix(w.name) <= block[i] && !(InstallPrefix(other) <= block[i])
    {
      RewritePlain(w.name, patterns[i]);
      NoForeignPrefix(w.name, other, patterns[i]);
    }
  }

  /** No cross-package leakage: when member k's patterns are plain, every rule in member k's
      stretch of the list lies under member k's install directory and under the install
      directory of no member j whose npm name differs. */
  lemma RulesAttributed(workspaces: seq<Workspace>, k: nat, j: nat)
    requires k < |workspaces| && j < |workspaces|
    requires WorkspaceRules(workspaces).Ok?
    requires NpmName(workspaces[k].name) && NpmName(workspaces[j].name)
    requires workspaces[j].name != workspaces[k].name
    requires ChosenPatterns(workspaces[k]).Ok? ==> PlainPatterns(ChosenPatterns(workspaces[k]).value)
    ensures PackageRules(workspaces[k]).Ok?
    ensures
      var rules := WorkspaceRules(workspaces).value;
      var start := TotalSize(workspaces[..k], PackageRules);
      forall i | start <= i < start + |PackageRules(workspaces[k]).value| ::
        i < |rules| &&
        InstallPrefix(workspaces[k].name) <= rules[i] &&
        !(InstallPrefix(workspaces[j].name) <= rules[i])
  {
    var w, v := workspaces[k], workspaces[j];
    BlockPlacement(workspaces, PackageRules, k);
    BlockAttributed(w, v.name);
    StretchAttributed(WorkspaceRules(workspaces).value, PackageRules(w).value,
      TotalSize(workspaces[..k], PackageRules), w.name, v.name);
  }

  /** What holds of every rule of a block holds of every rule in the stretch the block
      occupies. */
  lemma StretchAttributed(rules: seq<string>, block: seq<string>, start: nat, owner: string, other: string)
    requires start + |block| <= |rules| && rules[start..start + |block|] == block
    requires forall r | r in block :: InstallPrefix(owner) <= r && !(InstallPrefix(other) <= r)
    ensures forall i | start <= i < start + |block| ::
      InstallPrefix(owner) <= rules[i] && !(InstallPrefix(other) <= rules[i])
  {
    forall i | start <= i < start + |block|
      ensures InstallPrefix(owner) <= rules[i] && !(InstallPrefix(other) <= rules[i])
    {
      assert rules[i] == block[i - start];
      assert block[i - start] in block;
    }
  }

  /** A two-member workspace: member `a` declares one build pattern, member `b` declares
      nothing; `a`'s rule comes first, then `b`'s two default rules. */
  lemma TwoMemberScenario(a: Workspace, b: Workspace)
    requires a.manifest == Parsed(Array(["build/**"])) && b.manifest == Parsed(Missing)
    requires PlainPath(a.name) && PlainPath(b.name)
    ensures WorkspaceRules([a, b]) == Ok([
      InstallPrefix(a.name) + "build/**",
      InstallPrefix(b.name) + "dist/**",
      InstallPrefix(b.name) + "package.json"])
  {
    BuildGlobPlain();
    SinglePatternBlock(a, "build/**");
    DefaultFallback(b);
    assert [a, b] == [a] + [b];
    ConcatAppend([a], [b], PackageRules);
    ConcatSingle(a, PackageRules);
    ConcatSingle(b, PackageRules);
    assert [InstallPrefix(a.name) + "build/**"] +
      [InstallPrefix(b.name) + "dist/**", InstallPrefix(b.name) + "package.json"] ==
      [InstallPrefix(a.name) + "build/**", InstallPrefix(b.name) + "dist/**", InstallPrefix(b.name) + "package.json"];
  }

  /** The build pattern of the two-member workspace is a plain path. */
  lemma BuildGlobPlain()
    ensures PlainPath("build/**")
  {
    assert "build/**" == "build" + "/" + "**";
    SplitConcat("build", "**");
    SplitSingle("build");
    SplitSingle("**");
  }

  /** A member declaring exactly one plain pattern contributes exactly that pattern, moved
      under its install directory. */
  lemma SinglePatternBlock(w: Workspace, p: string)
    requires w.manifest == Parsed(Array([p]))
    requires PlainPath(w.name) && PlainPath(p)
    ensures PackageRules(w) == Ok([InstallPrefix(w.name) + p])
  {
    RewritePlain(w.name, p);
    var block := Rewrite(w.name, [p]);
    assert block == [block[0]];
  }

  // ---------------------------------------------------------------------------------------
  // The exported `files` array
  // ---------------------------------------------------------------------------------------

  /** Every `{from, to}` entry of the `files` array copies a directory to the same place,
      and the workspace rules are the only entries between the fixed head and tail. */
  lemma CopyEntriesKeepPlace(cwd: string, main: Option<string>, workspaces: seq<Workspace>)
    requires BuildConfiguration(cwd, main, workspaces).Ok?
    ensures
      var files := BuildConfiguration(cwd, main, workspaces).value.files;
      forall i | 0 <= i < |files| :: files[i].Copy? ==> files[i].rule.from == files[i].rule.to
    ensures
      var files := BuildConfiguration(cwd, main, workspaces).value.files;
      forall i | 0 <= i < |files| :: files[i].Copy? <==> i >= |files| - 2
  {
    var files := BuildConfiguration(cwd, main, workspaces).value.files;
    var rules := WorkspaceRules(workspaces).value;
    forall i | 0 <= i < |files|
      ensures files[i].Copy? ==> files[i].rule.from == files[i].rule.to
      ensures files[i].Copy? <==> i >= |files| - 2
    {
      if 3 <= i < |rules| + 3 {
        assert files[3 + (i - 3)] == Pattern(rules[i - 3]);
      }
    }
  }
}
