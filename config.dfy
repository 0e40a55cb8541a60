/** The job definitions (`BackupConfig`), the application-directory singleton
    (`LoadConfig` / `GetConfig`) and the selection of job files under
    `<AppDir>/config` (config.go). */
module Config {
  import opened Common
  import opened Strings
  import opened Files

  /** A source/destination pair of `folders` or of `rclone_sync`. */
  datatype Pair = Pair(from: string, to: string)

  /** Go's `int64`. */
  type Int64 = x: int | -0x8000_0000_0000_0000 <= x < 0x8000_0000_0000_0000

  /** One job, as decoded from its JSON file. */
  datatype BackupConfig = BackupConfig(
    name: string,
    folders: seq<Pair>,
    dbSsh: string,
    dbDestFolder: string,
    dbContainerName: string,
    pgUser: string,
    pgPassword: string,
    pgHost: string,
    pgPort: string,
    pgDB: string,
    backupTimes: seq<string>,
    backupAtStartup: bool,
    daysBeforeDelete: Int64,
    rcloneSync: seq<Pair>)

  /** `Config`: where the application's files live. */
  datatype AppConfig = AppConfig(appDir: string)

  /** The package-level `config` pointer: empty until `LoadConfig` sets it. */
  class Registry {
    var config: Option<AppConfig>

    constructor ()
      ensures config == None
    {
      config := None;
    }

    /** `LoadConfig`: replaces whatever was loaded before. */
    method LoadConfig(appDir: string) returns (cf: AppConfig)
      modifies this
      ensures cf.appDir == appDir
      ensures config == Some(cf)
      ensures GetConfig() == Done(cf)
    {
      cf := AppConfig(appDir);
      config := Some(cf);
    }

    /** `GetConfig`: the process ends if nothing was loaded. */
    function GetConfig(): (r: Outcome<AppConfig>)
      reads this
      ensures r.Fatal? <==> config.None?
      ensures r.Done? ==> config == Some(r.value)
    {
      match config
      case None => Fatal("config was not loaded")
      case Some(cf) => Done(cf)
    }
  }

  const ConfigDir: string := "config"
  const ConfigExtension: string := ".json"

  /** The folder that holds the job files. */
  function ConfigFolder(appDir: string): string {
    JoinPath(appDir, ConfigDir)
  }

  /** The file of the job called `name`. */
  function ConfigPath(appDir: string, name: string): string {
    JoinPath(ConfigFolder(appDir), name + ConfigExtension)
  }

  /** `ReadBackupConfig(name)` reads `<AppDir>/config/<name>.json` (or
      `config/<name>.json` when the application directory is empty). */
  lemma ConfigPathShape(appDir: string, name: string)
    ensures appDir != "" ==> ConfigPath(appDir, name) == appDir + "/config/" + name + ".json"
    ensures appDir == "" ==> ConfigPath(appDir, name) == "config/" + name + ".json"
  {
  }

  /** Why a job file could not be turned into a job. */
  datatype ReadError = ReadFailed(path: string) | DecodeFailed(path: string)

  /** Go's `(*BackupConfig, error)`. */
  datatype Fallible<T> = Ok(value: T) | Err(error: ReadError)

  /** `json.Unmarshal` into a `BackupConfig`, as a partial function of the bytes. */
  type Decoder = Bytes -> Option<BackupConfig>

  /** `ReadBackupConfig`: fatal if no configuration was loaded; otherwise the
      read or decode error of the one path it reads, or the decoded job. */
  function ReadBackupConfig(reg: Registry, fs: FileSystem, decode: Decoder, name: string)
    : (r: Outcome<Fallible<BackupConfig>>)
    reads reg
    ensures r.Fatal? <==> reg.config.None?
    ensures r.Done? ==>
      var path := ConfigPath(reg.config.value.appDir, name);
      && (r.value.Ok? <==> path in fs.files && decode(fs.files[path]).Some?)
      && (r.value.Ok? ==> decode(fs.files[path]) == Some(r.value.value))
      && (r.value.Err? ==> r.value.error.path == path)
      && (r.value.Err? ==> (r.value.error.ReadFailed? <==> path !in fs.files))
  {
    match reg.GetConfig()
    case Fatal(m) => Fatal(m)
    case Done(cf) =>
      var path := ConfigPath(cf.appDir, name);
      if path !in fs.files then Done(Err(ReadFailed(path)))
      else
        match decode(fs.files[path])
        case None => Done(Err(DecodeFailed(path)))
        case Some(c) => Done(Ok(c))
  }

  /** The names in a listing that end in ".json", in listing order. */
  function JsonNames(listing: seq<Entry>): (r: seq<string>)
    ensures |r| <= |listing|
    ensures forall i :: 0 <= i < |r| ==> HasSuffix(r[i], ConfigExtension)
    decreases |listing|
  {
    if listing == [] then []
    else
      var last := listing[|listing| - 1];
      JsonNames(listing[..|listing| - 1]) + (if HasSuffix(last.name, ConfigExtension) then [last.name] else [])
  }

  /** The names of a listing, in order. */
  function Names(listing: seq<Entry>): (names: seq<string>)
    ensures |names| == |listing|
    ensures forall i :: 0 <= i < |listing| ==> names[i] == listing[i].name
  {
    seq(|listing|, i requires 0 <= i < |listing| => listing[i].name)
  }

  /** The job files are ".json" names of the listing, taken in listing order. */
  lemma {:induction false} JsonNamesInOrder(listing: seq<Entry>)
    ensures IsSubsequence(JsonNames(listing), Names(listing))
    ensures forall n :: n in JsonNames(listing) ==> HasSuffix(n, ConfigExtension)
    decreases |listing|
  {
    if listing != [] {
      var init := listing[..|listing| - 1];
      var last := listing[|listing| - 1];
      JsonNamesInOrder(init);
      assert Names(listing) == Names(init) + [last.name];
      if HasSuffix(last.name, ConfigExtension) {
        assert JsonNames(listing) == JsonNames(init) + [last.name];
        SubsequenceExtendBoth(JsonNames(init), Names(init), last.name);
      } else {
        assert JsonNames(listing) == JsonNames(init);
        SubsequenceExtendRight(JsonNames(init), Names(init), last.name);
      }
    }
  }

  /** Every ".json" name of the listing is a job file, whether or not the
      entry is a directory. */
  lemma {:induction false} JsonNamesComplete(listing: seq<Entry>)
    ensures forall i :: 0 <= i < |listing| && HasSuffix(listing[i].name, ConfigExtension)
              ==> listing[i].name in JsonNames(listing)
    decreases |listing|
  {
    if listing != [] {
      var init := listing[..|listing| - 1];
      JsonNamesComplete(init);
      forall i | 0 <= i < |listing| && HasSuffix(listing[i].name, ConfigExtension)
        ensures listing[i].name in JsonNames(listing)
      {
        if i < |listing| - 1 {
          assert listing[i] == init[i];
          assert listing[i].name in JsonNames(init);
        }
      }
    }
  }

  /** Two listings with the same names select the same job files. */
  lemma {:induction false} JsonNamesIgnoreKind(a: seq<Entry>, b: seq<Entry>)
    requires Names(a) == Names(b)
    ensures JsonNames(a) == JsonNames(b)
    decreases |a|
  {
    if a != [] {
      assert |a| == |b|;
      assert Names(a[..|a| - 1]) == Names(b[..|b| - 1]);
      assert a[|a| - 1].name == b[|b| - 1].name;
      JsonNamesIgnoreKind(a[..|a| - 1], b[..|b| - 1]);
    }
  }

  lemma JsonNamesAppend(listing: seq<Entry>, e: Entry)
    ensures JsonNames(listing + [e])
         == JsonNames(listing) + (if HasSuffix(e.name, ConfigExtension) then [e.name] else [])
  {
    assert (listing + [e])[..|listing|] == listing;
  }

  /** Every selected job file of `folder` can be read and decoded. */
  predicate Loadable(fs: FileSystem, decode: Decoder, folder: string, names: seq<string>) {
    forall n :: n in names ==>
      JoinPath(folder, n) in fs.files && decode(fs.files[JoinPath(folder, n)]).Some?
  }

  /** `jobs` are the decoded job files `names` of `folder`, one for one. */
  ghost predicate LoadedAs(fs: FileSystem, decode: Decoder, folder: string, names: seq<string>,
                           jobs: seq<BackupConfig>)
  {
    && Loadable(fs, decode, folder, names)
    && |jobs| == |names|
    && forall k :: 0 <= k < |names| ==> decode(fs.files[JoinPath(folder, names[k])]) == Some(jobs[k])
  }

  lemma LoadedAsExtend(fs: FileSystem, decode: Decoder, folder: string, names: seq<string>,
                       jobs: seq<BackupConfig>, n: string, c: BackupConfig)
    requires LoadedAs(fs, decode, folder, names, jobs)
    requires JoinPath(folder, n) in fs.files && decode(fs.files[JoinPath(folder, n)]) == Some(c)
    ensures LoadedAs(fs, decode, folder, names + [n], jobs + [c])
  {
  }

  /** One selected entry that cannot be read or decoded makes the whole
      listing unloadable. */
  lemma UnloadableEntry(fs: FileSystem, decode: Decoder, folder: string, entries: seq<Entry>, i: int)
    requires 0 <= i < |entries| && HasSuffix(entries[i].name, ConfigExtension)
    requires !(JoinPath(folder, entries[i].name) in fs.files
               && decode(fs.files[JoinPath(folder, entries[i].name)]).Some?)
    ensures !Loadable(fs, decode, folder, JsonNames(entries))
  {
    JsonNamesComplete(entries);
  }

  /** The job name a job file stands for: the file name without ".json". */
  function JobName(file: string): string
    requires HasSuffix(file, ConfigExtension)
  {
    file[..|file| - |ConfigExtension|]
  }

  /** The job that `ReadBackupConfigs` takes from a listed job file is the one
      `ReadBackupConfig` returns for the same name. */
  lemma ListedJobIsNamedJob(reg: Registry, fs: FileSystem, decode: Decoder, file: string)
    requires reg.config.Some?
    requires HasSuffix(file, ConfigExtension)
    requires Loadable(fs, decode, ConfigFolder(reg.config.value.appDir), [file])
    ensures var path := JoinPath(ConfigFolder(reg.config.value.appDir), file);
      ReadBackupConfig(reg, fs, decode, JobName(file)) == Done(Ok(decode(fs.files[path]).value))
  {
    assert JobName(file) + ConfigExtension == file;
    assert file in [file];
  }

  /** `ReadBackupConfigs`: one job per ".json" entry of `<AppDir>/config`, in
      listing order; an unreadable folder or any unreadable or undecodable job
      file ends the process, so no partial list is ever returned. */
  method ReadBackupConfigs(reg: Registry, fs: FileSystem, decode: Decoder)
    returns (r: Outcome<seq<BackupConfig>>)
    ensures r.Done? <==>
      && reg.config.Some?
      && ConfigFolder(reg.config.value.appDir) in fs.dirs
      && var folder := ConfigFolder(reg.config.value.appDir);
         Loadable(fs, decode, folder, JsonNames(fs.dirs[folder]))
    ensures r.Done? ==>
      var folder := ConfigFolder(reg.config.value.appDir);
      var names := JsonNames(fs.dirs[folder]);
      && |r.value| == |names|
      && forall k :: 0 <= k < |names| ==>
           decode(fs.files[JoinPath(folder, names[k])]) == Some(r.value[k])
  {
    var got := reg.GetConfig();
    if got.Fatal? {
      return Fatal(got.message);
    }
    var folder := ConfigFolder(got.value.appDir);
    if folder !in fs.dirs {
      return Fatal("open " + folder + ": cannot read directory");
    }
    r := LoadJobs(fs, decode, folder, fs.dirs[folder]);
  }

  /** The loop of `ReadBackupConfigs` over the listing of `folder`: every
      ".json" entry is read and decoded in order, and the first that cannot
      be ends the process. */
  method LoadJobs(fs: FileSystem, decode: Decoder, folder: string, entries: seq<Entry>)
    returns (r: Outcome<seq<BackupConfig>>)
    ensures r.Done? <==> Loadable(fs, decode, folder, JsonNames(entries))
    ensures r.Done? ==> LoadedAs(fs, decode, folder, JsonNames(entries), r.value)
  {
    var ret: seq<BackupConfig> := [];
    var i := 0;
    while i < |entries|
      invariant 0 <= i <= |entries|
      invariant LoadedAs(fs, decode, folder, JsonNames(entries[..i]), ret)
    {
      var e := entries[i];
      assert entries[..i + 1] == entries[..i] + [e];
      JsonNamesAppend(entries[..i], e);
      if HasSuffix(e.name, ConfigExtension) {
        var path := JoinPath(folder, e.name);
        if path !in fs.files {
          UnloadableEntry(fs, decode, folder, entries, i);
          return Fatal("open " + path + ": cannot read file");
        }
        var c := decode(fs.files[path]);
        if c.None? {
          UnloadableEntry(fs, decode, folder, entries, i);
          return Fatal("cannot decode " + path);
        }
        LoadedAsExtend(fs, decode, folder, JsonNames(entries[..i]), ret, e.name, c.value);
        ret := ret + [c.value];
      }
      i := i + 1;
    }
    assert entries[..i] == entries;
    return Done(ret);
  }
}
