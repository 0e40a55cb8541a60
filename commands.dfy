/** The external commands of one backup run, as data (argument vector, extra
    environment, where standard output goes), and the three step methods
    that issue them: `BackupDatabase`, `BackupFolders` and `RcloneSync`. */
module Commands {
  import opened Common
  import opened Strings
  import opened Files
  import opened Timestamps
  import opened Config

  /** Where a command's standard output goes. */
  datatype Output = Inherit | ToFile(path: string)

  /** One `exec.Command`: the argument vector (program name first), the
      variables added to the inherited environment, and the output sink. */
  datatype Command = Command(argv: seq<string>, extraEnv: seq<string>, stdout: Output)

  /** The database step's choice: a dump command, or an end of the process
      for a containerised database, which is not supported. */
  datatype DatabasePlan = Unsupported(message: string) | Dump(cmd: Command)

  const DockerUnsupported: string := "not implemented support for docker yet"

  /** The credential, as `fmt.Sprintf("PGPASSWORD=%s", c.PgPassword)`. */
  function PasswordAssignment(c: BackupConfig): string {
    "PGPASSWORD=" + c.pgPassword
  }

  /** The `pg_dump` invocation shared by the local and the remote variant. */
  function PgDumpArgs(c: BackupConfig): seq<string> {
    ["pg_dump", "-d", c.pgDB, "-U", c.pgUser, "-p", c.pgPort, "-h", c.pgHost, "-O", "-x", "-Ft"]
  }

  /** The dump file: `DBDestFolder/<now formatted>.tar`, from one clock reading
      taken before the command runs. */
  function DumpPath(c: BackupConfig, now: WallClock): string
    requires Valid(now)
  {
    JoinPath(c.dbDestFolder, ArtifactName(now))
  }

  /** The command selection of `BackupDatabase`. */
  function DatabaseCommand(c: BackupConfig, now: WallClock): (r: DatabasePlan)
    requires Valid(now)
    ensures r.Unsupported? <==> c.dbContainerName != ""
    ensures r.Dump? ==> r.cmd.stdout == ToFile(DumpPath(c, now)) && "pg_dump" in r.cmd.argv
    ensures r.Dump? ==> (PasswordAssignment(c) in r.cmd.extraEnv <==> c.dbSsh == "")
  {
    if c.dbContainerName != "" then Unsupported(DockerUnsupported)
    else if c.dbSsh == "" then
      Dump(Command(PgDumpArgs(c), [PasswordAssignment(c)], ToFile(DumpPath(c, now))))
    else
      Dump(Command(["ssh", c.dbSsh, PasswordAssignment(c)] + PgDumpArgs(c), [], ToFile(DumpPath(c, now))))
  }

  /** A container name wins over everything else: the step ends the process
      and builds no command. */
  lemma ContainerIsFatal(c: BackupConfig, now: WallClock)
    requires Valid(now)
    ensures DatabaseCommand(c, now).Unsupported? <==> c.dbContainerName != ""
    ensures DatabaseCommand(c, now).Unsupported? ==> DatabaseCommand(c, now).message == DockerUnsupported
  {
  }

  /** Locally, the password travels only in the environment: the argument
      vector is the same whatever the password is. */
  lemma LocalDumpKeepsPasswordInEnv(c: BackupConfig, now: WallClock, password: string)
    requires Valid(now)
    requires c.dbContainerName == "" && c.dbSsh == ""
    ensures DatabaseCommand(c, now).Dump?
    ensures DatabaseCommand(c, now).cmd.extraEnv == [PasswordAssignment(c)]
    ensures DatabaseCommand(c.(pgPassword := password), now).cmd.argv == DatabaseCommand(c, now).cmd.argv
    ensures DatabaseCommand(c, now).cmd.argv
         == ["pg_dump", "-d", c.pgDB, "-U", c.pgUser, "-p", c.pgPort, "-h", c.pgHost, "-O", "-x", "-Ft"]
  {
  }

  /** Through ssh, the local invocation is prefixed by the host and the
      password assignment, which therefore does appear in the argument
      vector; nothing is added to the environment. */
  lemma SshDumpWrapsLocal(c: BackupConfig, now: WallClock)
    requires Valid(now)
    requires c.dbContainerName == "" && c.dbSsh != ""
    ensures DatabaseCommand(c, now).Dump?
    ensures DatabaseCommand(c.(dbSsh := ""), now).Dump?
    ensures DatabaseCommand(c, now).cmd.argv
         == ["ssh", c.dbSsh, PasswordAssignment(c)] + DatabaseCommand(c.(dbSsh := ""), now).cmd.argv
    ensures DatabaseCommand(c, now).cmd.argv
         == ["ssh", c.dbSsh, PasswordAssignment(c),
             "pg_dump", "-d", c.pgDB, "-U", c.pgUser, "-p", c.pgPort, "-h", c.pgHost, "-O", "-x", "-Ft"]
    ensures DatabaseCommand(c, now).cmd.extraEnv == []
  {
    assert DatabaseCommand(c, now).cmd.argv == ["ssh", c.dbSsh, PasswordAssignment(c)] + PgDumpArgs(c);
  }

  /** The dump lands in the job's dump folder under a name that the sweep
      recognises as a "*.tar" file and parses back to the clock reading. */
  lemma DumpNameRoundTrip(c: BackupConfig, now: WallClock)
    requires Valid(now)
    requires c.dbContainerName == ""
    ensures DatabaseCommand(c, now).Dump?
    ensures DatabaseCommand(c, now).cmd.stdout == ToFile(JoinPath(c.dbDestFolder, ArtifactName(now)))
    ensures HasSuffix(ArtifactName(now), Extension)
    ensures Parse(Stem(ArtifactName(now))) == Some(now)
  {
    ArtifactNameRoundTrip(now);
  }

  /** The `rsync` invocation for one folder pair. */
  function RsyncArgs(p: Pair): seq<string> {
    ["rsync", "-avvHPS", "--rsh='ssh'", p.from, p.to]
  }

  /** On Windows the same vector runs under `wsl`. */
  function FolderCommand(p: Pair, isWindows: bool): Command {
    Command(if isWindows then ["wsl"] + RsyncArgs(p) else RsyncArgs(p), [], Inherit)
  }

  /** The folder step's commands: one per pair, in configuration order. */
  function FolderCommands(c: BackupConfig, isWindows: bool): (r: seq<Command>)
    ensures |r| == |c.folders|
    ensures forall i :: 0 <= i < |r| ==>
      && |r[i].argv| >= 2 && r[i].argv[|r[i].argv| - 2..] == [c.folders[i].from, c.folders[i].to]
      && (r[i].argv[0] == "wsl" <==> isWindows)
      && r[i].extraEnv == []
  {
    seq(|c.folders|, i requires 0 <= i < |c.folders| => FolderCommand(c.folders[i], isWindows))
  }

  /** The `rclone` invocation for one pair. */
  function RcloneCommand(p: Pair): Command {
    Command(["rclone", "sync", p.from, p.to], [], Inherit)
  }

  /** The remote-sync step's commands: one per pair, in configuration order. */
  function RcloneCommands(c: BackupConfig): (r: seq<Command>)
    ensures |r| == |c.rcloneSync|
    ensures forall i :: 0 <= i < |r| ==>
      && |r[i].argv| >= 2 && r[i].argv[|r[i].argv| - 2..] == [c.rcloneSync[i].from, c.rcloneSync[i].to]
      && r[i].extraEnv == []
  {
    seq(|c.rcloneSync|, i requires 0 <= i < |c.rcloneSync| => RcloneCommand(c.rcloneSync[i]))
  }

  /** The folder commands carry each pair's source and destination last,
      start with `wsl` exactly on Windows, and otherwise differ in nothing. */
  lemma FolderCommandsShape(c: BackupConfig, isWindows: bool)
    ensures |FolderCommands(c, isWindows)| == |c.folders|
    ensures forall i :: 0 <= i < |c.folders| ==>
      var argv := FolderCommands(c, isWindows)[i].argv;
      && argv == (if isWindows then ["wsl"] else []) + ["rsync", "-avvHPS", "--rsh='ssh'", c.folders[i].from, c.folders[i].to]
      && (argv[0] == "wsl" <==> isWindows)
      && FolderCommands(c, isWindows)[i].extraEnv == []
  {
  }

  /** The rclone commands are `rclone sync From To`, one per pair in order. */
  lemma RcloneCommandsShape(c: BackupConfig)
    ensures |RcloneCommands(c)| == |c.rcloneSync|
    ensures forall i :: 0 <= i < |c.rcloneSync| ==>
      RcloneCommands(c)[i].argv == ["rclone", "sync", c.rcloneSync[i].from, c.rcloneSync[i].to]
  {
  }

  /** The process runner: every command it is handed is started, in order; its
      exit status is not known in advance. */
  class Shell {
    var issued: seq<Command>

    constructor ()
      ensures issued == []
    {
      issued := [];
    }

    /** `cmd.Run()`: true when the command ran and exited with status zero. */
    method Run(cmd: Command) returns (ok: bool)
      modifies this
      ensures issued == old(issued) + [cmd]
    {
      issued := issued + [cmd];
      ok :| true;
    }
  }

  /** `BackupFolders`: one rsync per pair in order; a failure is logged
      (returned in `failed`) and never skips the pairs after it. */
  method BackupFolders(sh: Shell, c: BackupConfig, isWindows: bool) returns (failed: seq<Command>)
    modifies sh
    ensures sh.issued == old(sh.issued) + FolderCommands(c, isWindows)
    ensures IsSubsequence(failed, FolderCommands(c, isWindows))
  {
    var cmds := FolderCommands(c, isWindows);
    failed := [];
    var i := 0;
    while i < |c.folders|
      invariant 0 <= i <= |c.folders|
      invariant sh.issued == old(sh.issued) + cmds[..i]
      invariant IsSubsequence(failed, cmds[..i])
    {
      var cmd := FolderCommand(c.folders[i], isWindows);
      assert cmds[..i + 1] == cmds[..i] + [cmd];
      var ok := sh.Run(cmd);
      if !ok {
        SubsequenceExtendBoth(failed, cmds[..i], cmd);
        failed := failed + [cmd];
      } else {
        SubsequenceExtendRight(failed, cmds[..i], cmd);
      }
      i := i + 1;
    }
    assert cmds[..i] == cmds;
  }

  /** `RcloneSync`: one `rclone sync` per pair in order; a failure is logged
      and never skips the pairs after it. */
  method RcloneSync(sh: Shell, c: BackupConfig) returns (failed: seq<Command>)
    modifies sh
    ensures sh.issued == old(sh.issued) + RcloneCommands(c)
    ensures IsSubsequence(failed, RcloneCommands(c))
  {
    var cmds := RcloneCommands(c);
    failed := [];
    var i := 0;
    while i < |c.rcloneSync|
      invariant 0 <= i <= |c.rcloneSync|
      invariant sh.issued == old(sh.issued) + cmds[..i]
      invariant IsSubsequence(failed, cmds[..i])
    {
      var cmd := RcloneCommand(c.rcloneSync[i]);
      assert cmds[..i + 1] == cmds[..i] + [cmd];
      var ok := sh.Run(cmd);
      if !ok {
        SubsequenceExtendBoth(failed, cmds[..i], cmd);
        failed := failed + [cmd];
      } else {
        SubsequenceExtendRight(failed, cmds[..i], cmd);
      }
      i := i + 1;
    }
    assert cmds[..i] == cmds;
  }

  /** `BackupDatabase`: a container name ends the process before anything
      runs; otherwise the clock reading `now` names the dump file and the one
      dump command runs with its output there. Success is `Done(true)`; a
      failed dump is only logged. */
  method BackupDatabase(sh: Shell, c: BackupConfig, now: WallClock) returns (r: Outcome<bool>)
    requires Valid(now)
    modifies sh
    ensures r.Fatal? <==> c.dbContainerName != ""
    ensures r.Fatal? ==> r.message == DockerUnsupported && sh.issued == old(sh.issued)
    ensures r.Done? ==> sh.issued == old(sh.issued) + [DatabaseCommand(c, now).cmd]
  {
    var plan := DatabaseCommand(c, now);
    match plan
    case Unsupported(m) =>
      return Fatal(m);
    case Dump(cmd) =>
      var ok := sh.Run(cmd);
      return Done(ok);
  }
}
