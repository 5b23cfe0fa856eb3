/**
  Where ApplicationDatabase.enable looks for its SQLite file and its migrations, in a
  packaged build and in a development tree, and how that choice meets the `extraResources`
  copy rule of the packaging configuration.

  The Electron `app` object contributes `isPackaged` and the user-data directory,
  `process.resourcesPath` the resources directory, and `process.cwd()` the working directory;
  all four are inputs here.
*/
module DatabaseModule {
  import opened Results
  import opened PosixPath
  import opened ElectronBuilder

  /** What `enable` reads from the application and the process. */
  datatype Environment = Environment(isPackaged: bool, userData: string, resourcesPath: string, cwd: string)

  /** The two paths handed to `connectDatabase`. */
  datatype ConnectProps = ConnectProps(sqliteFilePath: string, migrationsPath: string)

  const PackagedDatabaseFile := "database.sqlite"
  const DevDatabaseFile := "dev.sqlite"

  /** The database file and migrations directory chosen for an environment: the file is
      named after the mode, and a packaged build reads its migrations from a directory named
      like the copy destination. */
  function DatabasePaths(env: Environment): (r: ConnectProps)
    ensures Basename(r.sqliteFilePath) == if env.isPackaged then PackagedDatabaseFile else DevDatabaseFile
    ensures env.isPackaged ==> Basename(r.migrationsPath) == MigrationsDestination
  {
    if env.isPackaged then
      JoinFileName(env.userData, PackagedDatabaseFile);
      JoinFileName(env.resourcesPath, MigrationsDestination);
      ConnectProps(Join([env.userData, PackagedDatabaseFile]), Join([env.resourcesPath, MigrationsDestination]))
    else
      JoinFileName(env.cwd, DevDatabaseFile);
      ConnectProps(Join([env.cwd, DevDatabaseFile]), Resolve(env.cwd, MigrationsSource))
  }

  /** The path selection of `enable`: each case of the switch on `isPackaged` assigns both
      locals, and the pair is handed on as it is. */
  method Enable(env: Environment) returns (props: ConnectProps)
    ensures props == DatabasePaths(env)
  {
    var sqliteFilePath: string, migrationsPath: string;
    match env.isPackaged {
      case true =>
        sqliteFilePath := Join([env.userData, PackagedDatabaseFile]);
        migrationsPath := Join([env.resourcesPath, MigrationsDestination]);
      case false =>
        sqliteFilePath := Join([env.cwd, DevDatabaseFile]);
        migrationsPath := Resolve(env.cwd, MigrationsSource);
    }
    props := ConnectProps(sqliteFilePath, migrationsPath);
  }

  /** The relative migrations directory of the repository is a plain path. */
  lemma MigrationsSourcePlain()
    ensures PlainPath(MigrationsSource)
  {
    assert MigrationsSource == "packages" + "/" + "database" + "/" + "drizzle";
    ThreeSegmentsPlain("packages", "database", "drizzle");
  }

  /** Three plain segments joined by slashes make a plain path. */
  lemma ThreeSegmentsPlain(a: string, b: string, c: string)
    requires PlainSegment(a) && PlainSegment(b) && PlainSegment(c)
    ensures PlainPath(a + "/" + b + "/" + c)
  {
    SplitSingle(a);
    SplitSingle(b);
    SplitSingle(c);
    PlainConcat(a, b);
    PlainConcat(a + "/" + b, c);
  }

  /** Packaged: the database file is named database.sqlite inside the user-data directory,
      and the migrations directory is the `to` of the configuration's `extraResources` rule
      inside the resources directory. */
  lemma PackagedPaths(env: Environment, buildCwd: string, main: Option<string>, workspaces: seq<Workspace>)
    requires env.isPackaged
    requires BuildConfiguration(buildCwd, main, workspaces).Ok?
    ensures Basename(DatabasePaths(env).sqliteFilePath) == PackagedDatabaseFile
    ensures env.userData != "" && env.userData[0] == '/' ==> DatabasePaths(env).sqliteFilePath[0] == '/'
    ensures
      var copy := BuildConfiguration(buildCwd, main, workspaces).value.extraResources[0];
      DatabasePaths(env).migrationsPath == Join([env.resourcesPath, copy.to]) &&
      Basename(DatabasePaths(env).migrationsPath) == copy.to
  {
    JoinFileName(env.userData, PackagedDatabaseFile);
    JoinFileName(env.resourcesPath, MigrationsDestination);
  }

  /** Development: the database file is named dev.sqlite inside the working directory, and
      the migrations directory is exactly the `from` of the configuration's `extraResources`
      rule when the build ran from the same directory, an absolute path ending in
      packages/database/drizzle. */
  lemma DevPaths(env: Environment, main: Option<string>, workspaces: seq<Workspace>)
    requires !env.isPackaged
    requires env.cwd != "" && env.cwd[0] == '/'
    ensures Basename(DatabasePaths(env).sqliteFilePath) == DevDatabaseFile
    ensures DatabasePaths(env).sqliteFilePath[0] == '/'
    ensures DatabasePaths(env).migrationsPath[0] == '/'
    ensures EndsWith(DatabasePaths(env).migrationsPath, "/" + MigrationsSource)
    ensures BuildConfiguration(env.cwd, main, workspaces).Ok? ==>
      DatabasePaths(env).migrationsPath == BuildConfiguration(env.cwd, main, workspaces).value.extraResources[0].from
  {
    JoinFileName(env.cwd, DevDatabaseFile);
    MigrationsSourcePlain();
    ResolvePlain(env.cwd, MigrationsSource);
  }

  /** A packaged build and a development tree never share a database file, whatever the
      directories involved. */
  lemma ModesUseDifferentFiles(userData: string, resourcesPath: string, cwd: string)
    ensures DatabasePaths(Environment(true, userData, resourcesPath, cwd)).sqliteFilePath !=
            DatabasePaths(Environment(false, userData, resourcesPath, cwd)).sqliteFilePath
  {
    JoinFileName(userData, PackagedDatabaseFile);
    JoinFileName(cwd, DevDatabaseFile);
  }
}
