/** `BackupAll`: the database step and the folder step run side by side, both
    are waited for, and only then does the remote-sync step run. The
    concurrency is modelled by the set of event orders it allows. */
module Orchestration {
  import opened Timestamps
  import opened Config
  import opened Commands

  datatype Step = DatabaseStep | FolderStep | RemoteStep

  /** One thing a run does: a command started by a step, or the end of the
      process by `log.Fatal`. */
  datatype Event = Exec(step: Step, cmd: Command) | Exit(message: string)

  function StepEvents(step: Step, cmds: seq<Command>): (evs: seq<Event>)
    ensures |evs| == |cmds|
    ensures forall i :: 0 <= i < |cmds| ==> evs[i] == Exec(step, cmds[i])
  {
    seq(|cmds|, i requires 0 <= i < |cmds| => Exec(step, cmds[i]))
  }

  /** `t` is `a` and `b` merged, each kept in its own order. */
  predicate Interleaving(t: seq<Event>, a: seq<Event>, b: seq<Event>)
    decreases |a| + |b|
  {
    if a == [] then t == b
    else if b == [] then t == a
    else
      && t != []
      && ((t[0] == a[0] && Interleaving(t[1..], a[1..], b))
          || (t[0] == b[0] && Interleaving(t[1..], a, b[1..])))
  }

  function FolderEvents(c: BackupConfig, isWindows: bool): seq<Event> {
    StepEvents(FolderStep, FolderCommands(c, isWindows))
  }

  function RemoteEvents(c: BackupConfig): seq<Event> {
    StepEvents(RemoteStep, RcloneCommands(c))
  }

  /** The event orders one `BackupAll(c)` can produce. With a dump command:
      the dump and the folder commands in any interleaving, then every rclone
      command. With a container name: the database goroutine ends the process,
      after the folder goroutine has started some first part of its commands. */
  predicate IsBackupAllTrace(c: BackupConfig, isWindows: bool, now: WallClock, t: seq<Event>)
    requires Valid(now)
    ensures IsBackupAllTrace(c, isWindows, now, t) && c.dbContainerName == ""
            ==> |t| == 1 + |c.folders| + |c.rcloneSync|
    ensures IsBackupAllTrace(c, isWindows, now, t) && c.dbContainerName != ""
            ==> |t| <= 1 + |c.folders|
  {
    var folders := FolderEvents(c, isWindows);
    var remote := RemoteEvents(c);
    match DatabaseCommand(c, now)
    case Unsupported(m) =>
      |t| >= 1 && t[|t| - 1] == Exit(m) && t[..|t| - 1] <= folders
    case Dump(cmd) =>
      && |t| >= |remote|
      && t[|t| - |remote|..] == remote
      && (InterleavingLength(t[..|t| - |remote|], [Exec(DatabaseStep, cmd)], folders);
          Interleaving(t[..|t| - |remote|], [Exec(DatabaseStep, cmd)], folders))
  }

  /** A merge has as many events as its two sides together. */
  lemma {:induction false} InterleavingLength(t: seq<Event>, a: seq<Event>, b: seq<Event>)
    ensures Interleaving(t, a, b) ==> |t| == |a| + |b|
    decreases |a| + |b|
  {
    if a != [] && b != [] && t != [] {
      InterleavingLength(t[1..], a[1..], b);
      InterleavingLength(t[1..], a, b[1..]);
    }
  }

  lemma {:induction false} InterleavingMultiset(t: seq<Event>, a: seq<Event>, b: seq<Event>)
    requires Interleaving(t, a, b)
    ensures multiset(t) == multiset(a) + multiset(b)
    decreases |a| + |b|
  {
    if a != [] && b != [] {
      if t[0] == a[0] && Interleaving(t[1..], a[1..], b) {
        InterleavingMultiset(t[1..], a[1..], b);
        assert t == [t[0]] + t[1..];
        assert a == [a[0]] + a[1..];
      } else {
        InterleavingMultiset(t[1..], a, b[1..]);
        assert t == [t[0]] + t[1..];
        assert b == [b[0]] + b[1..];
      }
    }
  }

  /** The events of one step, in trace order. */
  function OfStep(t: seq<Event>, s: Step): seq<Event>
    decreases |t|
  {
    if t == [] then []
    else (if t[0].Exec? && t[0].step == s then [t[0]] else []) + OfStep(t[1..], s)
  }

  lemma {:induction false} OfStepAll(t: seq<Event>, s: Step)
    requires forall i :: 0 <= i < |t| ==> t[i].Exec? && t[i].step == s
    ensures OfStep(t, s) == t
    decreases |t|
  {
    if t != [] {
      OfStepAll(t[1..], s);
    }
  }

  lemma {:induction false} OfStepNone(t: seq<Event>, s: Step)
    requires forall i :: 0 <= i < |t| ==> !(t[i].Exec? && t[i].step == s)
    ensures OfStep(t, s) == []
    decreases |t|
  {
    if t != [] {
      OfStepNone(t[1..], s);
    }
  }

  /** Interleaving keeps the order within each side: filtering out one side
      gives the other back. */
  lemma {:induction false} InterleavingFilter(t: seq<Event>, a: seq<Event>, b: seq<Event>, s: Step)
    requires Interleaving(t, a, b)
    requires OfStep(a, s) == []
    ensures OfStep(t, s) == OfStep(b, s)
    decreases |a| + |b|
  {
    if a == [] {
    } else if b == [] {
    } else if t[0] == a[0] && Interleaving(t[1..], a[1..], b) {
      InterleavingFilter(t[1..], a[1..], b, s);
    } else {
      InterleavingFilter(t[1..], a, b[1..], s);
    }
  }

  lemma {:induction false} OfStepAppend(a: seq<Event>, b: seq<Event>, s: Step)
    ensures OfStep(a + b, s) == OfStep(a, s) + OfStep(b, s)
    decreases |a|
  {
    if a != [] {
      var head := if a[0].Exec? && a[0].step == s then [a[0]] else [];
      assert (a + b)[0] == a[0];
      assert (a + b)[1..] == a[1..] + b;
      OfStepAppend(a[1..], b, s);
      assert OfStep(a + b, s) == head + OfStep(a[1..] + b, s);
      assert OfStep(a, s) == head + OfStep(a[1..], s);
    } else {
      assert a + b == b;
    }
  }

  predicate IsPhaseOne(e: Event) {
    e.Exec? && e.step != RemoteStep
  }

  predicate IsRemote(e: Event) {
    e.Exec? && e.step == RemoteStep
  }

  /** Merging two sequences of first-phase events gives only first-phase events. */
  lemma {:induction false} InterleavingPhaseOne(t: seq<Event>, a: seq<Event>, b: seq<Event>)
    requires Interleaving(t, a, b)
    requires forall i :: 0 <= i < |a| ==> IsPhaseOne(a[i])
    requires forall i :: 0 <= i < |b| ==> IsPhaseOne(b[i])
    ensures forall i :: 0 <= i < |t| ==> IsPhaseOne(t[i])
    decreases |a| + |b|
  {
    if a != [] && b != [] {
      if t[0] == a[0] && Interleaving(t[1..], a[1..], b) {
        InterleavingPhaseOne(t[1..], a[1..], b);
      } else {
        InterleavingPhaseOne(t[1..], a, b[1..]);
      }
      forall i | 0 < i < |t| ensures IsPhaseOne(t[i]) {
        assert t[i] == t[1..][i - 1];
      }
    }
  }

  /** A trace whose first `k` events are first-phase and whose other events
      are remote has every remote event after every first-phase event. */
  lemma PhasesInOrder(t: seq<Event>, k: nat)
    requires k <= |t|
    requires forall i :: 0 <= i < k ==> IsPhaseOne(t[i])
    requires forall i :: k <= i < |t| ==> !IsPhaseOne(t[i])
    requires forall i :: 0 <= i < |t| && IsRemote(t[i]) ==> k <= i
    ensures forall i, j :: 0 <= i < |t| && 0 <= j < |t| && IsRemote(t[i]) && IsPhaseOne(t[j]) ==> j < i
  {
  }

  /** The barrier: in every order `BackupAll` allows, each rclone command comes
      after the dump and after every folder command. */
  lemma RemoteAfterBarrier(c: BackupConfig, isWindows: bool, now: WallClock, t: seq<Event>)
    requires Valid(now)
    requires IsBackupAllTrace(c, isWindows, now, t)
    ensures forall i, j :: 0 <= i < |t| && 0 <= j < |t| && IsRemote(t[i]) && IsPhaseOne(t[j]) ==> j < i
  {
    var folders := FolderEvents(c, isWindows);
    var remote := RemoteEvents(c);
    match DatabaseCommand(c, now)
    case Unsupported(m) =>
      forall i | 0 <= i < |t| ensures !IsRemote(t[i]) {
        if i < |t| - 1 {
          assert t[i] == folders[i];
        }
      }
    case Dump(cmd) =>
      var k := |t| - |remote|;
      var first := t[..k];
      InterleavingPhaseOne(first, [Exec(DatabaseStep, cmd)], folders);
      forall i | 0 <= i < k ensures IsPhaseOne(t[i]) {
        assert t[i] == first[i];
      }
      forall i | k <= i < |t| ensures IsRemote(t[i]) {
        assert t[i] == remote[i - k];
      }
      PhasesInOrder(t, k);
  }

  /** With a dump command, every configured command runs exactly once. */
  lemma EveryCommandOnce(c: BackupConfig, isWindows: bool, now: WallClock, t: seq<Event>)
    requires Valid(now)
    requires DatabaseCommand(c, now).Dump?
    requires IsBackupAllTrace(c, isWindows, now, t)
    ensures multiset(t) == multiset([Exec(DatabaseStep, DatabaseCommand(c, now).cmd)])
                         + multiset(FolderEvents(c, isWindows)) + multiset(RemoteEvents(c))
  {
    var remote := RemoteEvents(c);
    var k := |t| - |remote|;
    assert t == t[..k] + t[k..];
    InterleavingMultiset(t[..k], [Exec(DatabaseStep, DatabaseCommand(c, now).cmd)], FolderEvents(c, isWindows));
  }

  /** With a dump command, the folder commands and the rclone commands each
      run in configuration order. */
  lemma StepsKeepConfigurationOrder(c: BackupConfig, isWindows: bool, now: WallClock, t: seq<Event>)
    requires Valid(now)
    requires DatabaseCommand(c, now).Dump?
    requires IsBackupAllTrace(c, isWindows, now, t)
    ensures OfStep(t, FolderStep) == FolderEvents(c, isWindows)
    ensures OfStep(t, RemoteStep) == RemoteEvents(c)
  {
    var dump := [Exec(DatabaseStep, DatabaseCommand(c, now).cmd)];
    var folders := FolderEvents(c, isWindows);
    var remote := RemoteEvents(c);
    var k := |t| - |remote|;
    var first, last := t[..k], t[k..];
    assert t == first + last;
    assert OfStep(dump, FolderStep) == [] && OfStep(dump, RemoteStep) == [] by {
      OfStepNone(dump, FolderStep);
      OfStepNone(dump, RemoteStep);
    }
    InterleavingFilter(first, dump, folders, FolderStep);
    InterleavingFilter(first, dump, folders, RemoteStep);
    OfStepAll(folders, FolderStep);
    OfStepNone(folders, RemoteStep);
    OfStepAll(last, RemoteStep);
    OfStepNone(last, FolderStep);
    OfStepAppend(first, last, FolderStep);
    OfStepAppend(first, last, RemoteStep);
  }

  /** An unsupported database ends the run: the exit is the last event, no
      rclone command runs, and what ran before is a first part of the folder
      commands in order. */
  lemma FatalStopsRun(c: BackupConfig, isWindows: bool, now: WallClock, t: seq<Event>)
    requires Valid(now)
    requires c.dbContainerName != ""
    requires IsBackupAllTrace(c, isWindows, now, t)
    ensures t[|t| - 1] == Exit(DockerUnsupported)
    ensures forall i :: 0 <= i < |t| ==> !IsRemote(t[i])
    ensures t[..|t| - 1] <= FolderEvents(c, isWindows)
  {
    forall i | 0 <= i < |t| ensures !IsRemote(t[i]) {
      if i < |t| - 1 {
        assert t[i] == FolderEvents(c, isWindows)[i];
      }
    }
  }

  /** Both sequential schedules, dump first or folders first, are orders the
      run allows. */
  lemma SequentialSchedulesAllowed(c: BackupConfig, isWindows: bool, now: WallClock)
    requires Valid(now)
    requires DatabaseCommand(c, now).Dump?
    ensures var dump := Exec(DatabaseStep, DatabaseCommand(c, now).cmd);
      && IsBackupAllTrace(c, isWindows, now, [dump] + FolderEvents(c, isWindows) + RemoteEvents(c))
      && IsBackupAllTrace(c, isWindows, now, FolderEvents(c, isWindows) + [dump] + RemoteEvents(c))
  {
    var dump := Exec(DatabaseStep, DatabaseCommand(c, now).cmd);
    var folders := FolderEvents(c, isWindows);
    var remote := RemoteEvents(c);
    var t1 := [dump] + folders + remote;
    assert t1[..|t1| - |remote|] == [dump] + folders;
    assert t1[|t1| - |remote|..] == remote;
    if folders != [] {
      assert ([dump] + folders)[1..] == folders;
    }
    var t2 := folders + [dump] + remote;
    assert t2[..|t2| - |remote|] == folders + [dump];
    assert t2[|t2| - |remote|..] == remote;
    FolderFirstInterleaves(folders, dump);
  }

  lemma {:induction false} FolderFirstInterleaves(folders: seq<Event>, dump: Event)
    ensures Interleaving(folders + [dump], [dump], folders)
    decreases |folders|
  {
    if folders != [] {
      FolderFirstInterleaves(folders[1..], dump);
      assert (folders + [dump])[1..] == folders[1..] + [dump];
    }
  }
}
