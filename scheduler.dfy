/** The `scheduler` sub-command's set-up loop: per job, an optional run at
    start-up, then one daily registration per configured time; then the
    scheduler starts. What runs is recorded as a trace of events. */
module Scheduler {
  import opened Common
  import opened Config
  import opened Commands

  /** One daily registration: which job, at which "hh:mm" text. */
  datatype Job = Job(config: BackupConfig, at: string)

  /** `Sweep(c)` is `DeleteOld(c)`, `Run(c)` is `BackupAll(c)`; `Register`
      is a successful `gocron.Every(1).Day().At(t).Do(...)`; `Start` is
      `gocron.Start()`; `Exit` is `log.Fatal`. */
  datatype Event =
    | Sweep(config: BackupConfig)
    | Run(config: BackupConfig)
    | Register(job: Job)
    | Start
    | Exit(message: string)

  /** What a job does, at start-up and each time its registration fires. */
  function Action(c: BackupConfig): seq<Event> {
    [Sweep(c), Run(c)]
  }

  /** The action a registration fires: the one of the job it was made for. */
  function Fire(job: Job): seq<Event> {
    Action(job.config)
  }

  function StartupPart(c: BackupConfig): seq<Event> {
    if c.backupAtStartup then Action(c) else []
  }

  /** The jobs of one configuration, one per `backup_times` entry, in order. */
  function Jobs(c: BackupConfig): (js: seq<Job>)
    ensures |js| == |c.backupTimes|
    ensures forall i :: 0 <= i < |js| ==> js[i] == Job(c, c.backupTimes[i])
  {
    seq(|c.backupTimes|, i requires 0 <= i < |c.backupTimes| => Job(c, c.backupTimes[i]))
  }

  function Registrations(c: BackupConfig): (evs: seq<Event>)
    ensures |evs| == |c.backupTimes|
    ensures forall i :: 0 <= i < |evs| ==> evs[i] == Register(Job(c, c.backupTimes[i]))
  {
    seq(|c.backupTimes|, i requires 0 <= i < |c.backupTimes| => Register(Job(c, c.backupTimes[i])))
  }

  /** The events of one configuration when nothing fails. */
  function Block(c: BackupConfig): seq<Event> {
    StartupPart(c) + Registrations(c)
  }

  function Blocks(cs: seq<BackupConfig>): seq<Event>
    decreases |cs|
  {
    if cs == [] then [] else Blocks(cs[..|cs| - 1]) + Block(cs[|cs| - 1])
  }

  /** The set-up trace when nothing fails. */
  function Plan(cs: seq<BackupConfig>): (r: seq<Event>)
    ensures |r| >= 1 && r[|r| - 1] == Start
  {
    Blocks(cs) + [Start]
  }

  function JobsOf(cs: seq<BackupConfig>): seq<Job>
    decreases |cs|
  {
    if cs == [] then [] else JobsOf(cs[..|cs| - 1]) + Jobs(cs[|cs| - 1])
  }

  /** The jobs a trace registered, in order. */
  function Registered(t: seq<Event>): seq<Job>
    decreases |t|
  {
    if t == [] then []
    else Registered(t[..|t| - 1]) + (if t[|t| - 1].Register? then [t[|t| - 1].job] else [])
  }

  lemma {:induction false} RegisteredAppend(a: seq<Event>, b: seq<Event>)
    ensures Registered(a + b) == Registered(a) + Registered(b)
    decreases |b|
  {
    if b == [] {
      assert a + b == a;
    } else {
      var init := b[..|b| - 1];
      assert (a + b)[..|a + b| - 1] == a + init;
      assert (a + b)[|a + b| - 1] == b[|b| - 1];
      RegisteredAppend(a, init);
    }
  }

  /** `gocron`'s job list. Whether a registration is accepted is gocron's
      business (it validates the time text); either outcome is possible. */
  class Cron {
    var jobs: seq<Job>

    constructor ()
      ensures jobs == []
    {
      jobs := [];
    }

    /** `gocron.Every(1).Day().At(job.at).Do(...)`: `None` when the job was
        added, otherwise the error, and the list is unchanged. */
    method Every(job: Job) returns (err: Option<string>)
      modifies this
      ensures err.None? ==> jobs == old(jobs) + [job]
      ensures err.Some? ==> jobs == old(jobs)
    {
      var ok: bool :| true;
      if ok {
        jobs := jobs + [job];
        err := None;
      } else {
        var message: string :| true;
        err := Some(message);
      }
    }
  }

  /** A start-up run that ends the process: `BackupAll` of a job with a
      container name. */
  predicate FatalRun(c: BackupConfig) {
    c.backupAtStartup && c.dbContainerName != ""
  }

  predicate NoFatalRun(cs: seq<BackupConfig>) {
    forall k :: 0 <= k < |cs| ==> !FatalRun(cs[k])
  }

  /** How one configuration's events can be cut off by `log.Fatal`: right
      after its start-up run when that run ends the process (no registration
      follows), and otherwise just before the registration gocron refused. */
  predicate Cut(c: BackupConfig, part: seq<Event>, message: string) {
    && part <= Block(c)
    && if FatalRun(c) then part == StartupPart(c) && message == DockerUnsupported
       else |part| < |Block(c)| && Block(c)[|part|].Register?
  }

  /** The inner loop: one registration per `backup_times` entry, in order,
      stopping at the first refused one. */
  method RegisterTimes(cron: Cron, c: BackupConfig) returns (done: seq<Event>, err: Option<string>)
    modifies cron
    ensures |done| <= |c.backupTimes| && done == Registrations(c)[..|done|]
    ensures err.None? <==> |done| == |c.backupTimes|
    ensures cron.jobs == old(cron.jobs) + Jobs(c)[..|done|]
  {
    done := [];
    var j := 0;
    while j < |c.backupTimes|
      invariant 0 <= j <= |c.backupTimes|
      invariant |done| == j && done == Registrations(c)[..j]
      invariant cron.jobs == old(cron.jobs) + Jobs(c)[..j]
    {
      var job := Job(c, c.backupTimes[j]);
      err := cron.Every(job);
      if err.Some? {
        return;
      }
      assert Registrations(c)[..j + 1] == Registrations(c)[..j] + [Register(job)];
      assert Jobs(c)[..j + 1] == Jobs(c)[..j] + [job];
      done := done + [Register(job)];
      j := j + 1;
    }
    err := None;
  }

  /** One pass of the outer loop: the start-up run if the job asks for one
      (which ends the process for a container name), then its
      registrations. `exit` is the `log.Fatal` message, if any. */
  method ScheduleOne(cron: Cron, c: BackupConfig) returns (done: seq<Event>, exit: Option<string>)
    modifies cron
    ensures exit.None? ==> done == Block(c) && !FatalRun(c) && cron.jobs == old(cron.jobs) + Jobs(c)
    ensures exit.Some? ==> Cut(c, done, exit.value) && cron.jobs == old(cron.jobs) + Registered(done)
  {
    var start := StartupPart(c);
    if c.backupAtStartup && c.dbContainerName != "" {
      RegisteredStartup(c);
      return start, Some(DockerUnsupported);
    }
    var regs, err := RegisterTimes(cron, c);
    RegistrationsCut(c, |regs|);
    done := start + regs;
    exit := err;
  }

  /** The start-up part followed by the first `j` registrations: a first part
      of the block that registered the first `j` jobs, the whole block when
      `j` covers every time, and otherwise followed in the block by the next
      registration. */
  lemma RegistrationsCut(c: BackupConfig, j: nat)
    requires j <= |c.backupTimes|
    ensures var part := StartupPart(c) + Registrations(c)[..j];
      && part <= Block(c)
      && Registered(part) == Jobs(c)[..j]
      && (j == |c.backupTimes| ==> part == Block(c) && Jobs(c)[..j] == Jobs(c))
      && (j < |c.backupTimes| ==> |part| < |Block(c)| && Block(c)[|part|].Register?)
  {
    BlockSplit(c, j);
    RegisteredStartup(c);
    RegisteredAppend(StartupPart(c), Registrations(c)[..j]);
    RegisteredRegistrations(c, j);
  }

  /** Where the block splits after the `j`th registration. */
  lemma BlockSplit(c: BackupConfig, j: nat)
    requires j <= |c.backupTimes|
    ensures Block(c) == (StartupPart(c) + Registrations(c)[..j]) + Registrations(c)[j..]
    ensures j == |c.backupTimes| ==> Registrations(c)[..j] == Registrations(c) && Jobs(c)[..j] == Jobs(c)
    ensures j < |c.backupTimes| ==> Block(c)[|StartupPart(c)| + j] == Registrations(c)[j]
  {
    var regs := Registrations(c);
    assert regs == regs[..j] + regs[j..];
  }

  /** The set-up ran to `Start`: the trace is the plan and gocron gained every job. */
  ghost predicate Finished(configs: seq<BackupConfig>, trace: seq<Event>, before: seq<Job>, after: seq<Job>) {
    trace == Plan(configs) && after == before + JobsOf(configs)
  }

  /** The set-up ended the process while handling configuration `stop`, after
      the blocks of the configurations before it and the cut `part` of its
      own; gocron gained the jobs registered so far. */
  ghost predicate StoppedAt(configs: seq<BackupConfig>, trace: seq<Event>, stop: nat, part: seq<Event>,
                            before: seq<Job>, after: seq<Job>)
    requires stop < |configs|
  {
    && |trace| >= 1 && trace[|trace| - 1].Exit?
    && trace == Blocks(configs[..stop]) + part + [trace[|trace| - 1]]
    && Cut(configs[stop], part, trace[|trace| - 1].message)
    && after == before + JobsOf(configs[..stop]) + Registered(part)
  }

  /** The set-up loop of the `scheduler` sub-command. Either it follows `Plan`
      to `Start` and gocron holds every job, or it ends the process while
      handling configuration `stop`, after that configuration's events `part`;
      gocron then holds the jobs registered so far. No configuration before
      `stop` had a fatal start-up run. */
  method SetUp(cron: Cron, configs: seq<BackupConfig>)
    returns (trace: seq<Event>, ghost stop: nat, ghost part: seq<Event>)
    modifies cron
    ensures stop <= |configs| && NoFatalRun(configs[..stop])
    ensures stop == |configs| ==> Finished(configs, trace, old(cron.jobs), cron.jobs)
    ensures stop < |configs| ==> StoppedAt(configs, trace, stop, part, old(cron.jobs), cron.jobs)
  {
    ghost var before := cron.jobs;
    trace := [];
    var i := 0;
    while i < |configs|
      invariant 0 <= i <= |configs|
      invariant trace == Blocks(configs[..i])
      invariant cron.jobs == before + JobsOf(configs[..i])
      invariant NoFatalRun(configs[..i])
    {
      ghost var mid := cron.jobs;
      var done, exit := ScheduleOne(cron, configs[i]);
      if exit.Some? {
        StoppedAtIntro(configs, i, trace, done, exit.value, before, cron.jobs);
        trace := trace + done + [Exit(exit.value)];
        return trace, i, done;
      }
      SetUpStep(configs, i, trace, done, before, mid, cron.jobs);
      trace := trace + done;
      i := i + 1;
    }
    FinishedIntro(configs, trace, before, cron.jobs);
    trace := trace + [Start];
    stop, part := i, [];
  }

  lemma FinishedIntro(configs: seq<BackupConfig>, blocks: seq<Event>, before: seq<Job>, after: seq<Job>)
    requires blocks == Blocks(configs[..|configs|])
    requires after == before + JobsOf(configs[..|configs|])
    ensures Finished(configs, blocks + [Start], before, after)
  {
    assert configs[..|configs|] == configs;
  }

  /** One configuration handled without ending the process keeps the loop's
      invariant. */
  lemma SetUpStep(configs: seq<BackupConfig>, i: nat, trace: seq<Event>, done: seq<Event>,
                  before: seq<Job>, mid: seq<Job>, after: seq<Job>)
    requires i < |configs|
    requires trace == Blocks(configs[..i]) && mid == before + JobsOf(configs[..i]) && NoFatalRun(configs[..i])
    requires done == Block(configs[i]) && !FatalRun(configs[i]) && after == mid + Jobs(configs[i])
    ensures trace + done == Blocks(configs[..i + 1])
    ensures after == before + JobsOf(configs[..i + 1])
    ensures NoFatalRun(configs[..i + 1])
  {
    BlocksExtend(configs, i);
    NoFatalRunExtend(configs, i);
    assert after == before + (JobsOf(configs[..i]) + Jobs(configs[i]));
  }

  lemma StoppedAtIntro(configs: seq<BackupConfig>, i: nat, head: seq<Event>, part: seq<Event>, message: string,
                       before: seq<Job>, after: seq<Job>)
    requires i < |configs|
    requires head == Blocks(configs[..i])
    requires after == before + JobsOf(configs[..i]) + Registered(part)
    requires Cut(configs[i], part, message)
    ensures StoppedAt(configs, head + part + [Exit(message)], i, part, before, after)
  {
    var trace := head + part + [Exit(message)];
    assert trace[|trace| - 1] == Exit(message);
  }

  lemma BlocksExtend(cs: seq<BackupConfig>, i: nat)
    requires i < |cs|
    ensures Blocks(cs[..i]) + Block(cs[i]) == Blocks(cs[..i + 1])
    ensures JobsOf(cs[..i]) + Jobs(cs[i]) == JobsOf(cs[..i + 1])
  {
    assert cs[..i + 1][..i] == cs[..i];
  }

  lemma NoFatalRunExtend(cs: seq<BackupConfig>, i: nat)
    requires i < |cs|
    requires NoFatalRun(cs[..i]) && !FatalRun(cs[i])
    ensures NoFatalRun(cs[..i + 1])
  {
    forall k | 0 <= k < i + 1 ensures !FatalRun(cs[k]) {
    }
  }

  lemma RegisteredStartup(c: BackupConfig)
    ensures Registered(StartupPart(c)) == []
  {
    if c.backupAtStartup {
      var a := Action(c);
      assert a[..1] == [Sweep(c)];
      assert [Sweep(c)][..0] == [];
      assert Registered([Sweep(c)]) == Registered([]) + [];
      assert Registered(a) == Registered(a[..1]) + [];
    }
  }

  lemma {:induction false} RegisteredRegistrations(c: BackupConfig, j: nat)
    requires j <= |c.backupTimes|
    ensures Registered(Registrations(c)[..j]) == Jobs(c)[..j]
    decreases j
  {
    if j > 0 {
      RegisteredRegistrations(c, j - 1);
      assert Registrations(c)[..j][..j - 1] == Registrations(c)[..j - 1];
      assert Jobs(c)[..j] == Jobs(c)[..j - 1] + [Jobs(c)[j - 1]];
    }
  }

  lemma RegisteredBlock(c: BackupConfig)
    ensures Registered(Block(c)) == Jobs(c)
  {
    RegistrationsCut(c, |c.backupTimes|);
  }

  /** The jobs a trace registers are the plan's: the full plan registers
      exactly `JobsOf`, one job per configured time, in order. */
  lemma {:induction false} RegisteredBlocks(cs: seq<BackupConfig>)
    ensures Registered(Blocks(cs)) == JobsOf(cs)
    decreases |cs|
  {
    if cs != [] {
      var c := cs[|cs| - 1];
      RegisteredBlocks(cs[..|cs| - 1]);
      RegisteredAppend(Blocks(cs[..|cs| - 1]), Block(c));
      RegisteredBlock(c);
    }
  }

  lemma RegisteredPlan(cs: seq<BackupConfig>)
    ensures Registered(Plan(cs)) == JobsOf(cs)
  {
    RegisteredBlocks(cs);
    RegisteredAppend(Blocks(cs), [Start]);
    assert Registered([Start]) == Registered([]) + [];
  }

  /** The blocks of a first part of the configurations are a first part of
      the blocks of all of them. */
  lemma {:induction false} BlocksPrefix(cs: seq<BackupConfig>, n: nat)
    requires n <= |cs|
    ensures Blocks(cs[..n]) <= Blocks(cs)
    ensures JobsOf(cs[..n]) <= JobsOf(cs)
    decreases |cs| - n
  {
    if n < |cs| {
      BlocksPrefix(cs, n + 1);
      assert cs[..n + 1][..n] == cs[..n];
    } else {
      assert cs[..n] == cs;
    }
  }

  lemma PrefixStep<T>(head: seq<T>, block: seq<T>, whole: seq<T>, part: seq<T>)
    requires head + block <= whole
    requires part <= block
    ensures head + part <= whole
    ensures |part| < |block| ==> |head + part| < |whole| && whole[|head + part|] == block[|part|]
  {
    if |part| < |block| {
      assert whole[|head + part|] == (head + block)[|head| + |part|];
    }
  }

  /** A set-up cut off while handling configuration `stop` has done a proper
      first part of the plan, without `Start`: it stopped right after that
      configuration's start-up run when the run was fatal, and otherwise just
      before its next planned registration. */
  lemma CutIsPlanPrefix(cs: seq<BackupConfig>, stop: nat, part: seq<Event>, message: string)
    requires stop < |cs|
    requires Cut(cs[stop], part, message)
    ensures var done := Blocks(cs[..stop]) + part;
      && done <= Blocks(cs) && |done| < |Plan(cs)|
      && if FatalRun(cs[stop]) then |done| >= 1 && done[|done| - 1] == Run(cs[stop])
         else |done| < |Blocks(cs)| && Blocks(cs)[|done|].Register?
  {
    var c := cs[stop];
    var head := Blocks(cs[..stop]);
    BlocksExtend(cs, stop);
    BlocksPrefix(cs, stop + 1);
    PrefixStep(head, Block(c), Blocks(cs), part);
    if !FatalRun(c) {
      assert Blocks(cs)[|head + part|] == Block(c)[|part|];
    }
  }

  /** After a cut-off set-up, gocron holds exactly the jobs its trace
      registered, and they are a first part of the full job list. */
  lemma CutJobs(cs: seq<BackupConfig>, stop: nat, part: seq<Event>, message: string)
    requires stop < |cs|
    requires Cut(cs[stop], part, message)
    ensures Registered(Blocks(cs[..stop]) + part) == JobsOf(cs[..stop]) + Registered(part)
    ensures JobsOf(cs[..stop]) + Registered(part) <= JobsOf(cs)
  {
    var c := cs[stop];
    RegisteredBlocks(cs[..stop]);
    RegisteredAppend(Blocks(cs[..stop]), part);
    var rest := Block(c)[|part|..];
    assert Block(c) == part + rest;
    RegisteredAppend(part, rest);
    RegisteredBlock(c);
    BlocksExtend(cs, stop);
    BlocksPrefix(cs, stop + 1);
    PrefixStep(JobsOf(cs[..stop]), Jobs(c), JobsOf(cs), Registered(part));
  }

  /** `Start` comes last in the plan and nowhere else. */
  lemma {:induction false} StartOnlyAtEnd(cs: seq<BackupConfig>)
    ensures Plan(cs)[|Plan(cs)| - 1] == Start
    ensures Start !in Blocks(cs)
    decreases |cs|
  {
    if cs != [] {
      var init, c := cs[..|cs| - 1], cs[|cs| - 1];
      StartOnlyAtEnd(init);
      StartNotInBlock(c);
      assert Blocks(cs) == Blocks(init) + Block(c);
    }
  }

  lemma StartNotInBlock(c: BackupConfig)
    ensures Start !in Block(c)
  {
    assert Start !in StartupPart(c);
    assert Start !in Registrations(c);
  }

  /** What the plan contains: the events of each configuration's block, and
      nothing else. */
  lemma {:induction false} BlocksMembers(cs: seq<BackupConfig>, e: Event)
    ensures e in Blocks(cs) <==> exists k :: 0 <= k < |cs| && e in Block(cs[k])
    decreases |cs|
  {
    if cs != [] {
      var init := cs[..|cs| - 1];
      BlocksMembers(init, e);
      if e in Blocks(init) {
        var k :| 0 <= k < |init| && e in Block(init[k]);
        assert cs[k] == init[k];
      }
      if exists k :: 0 <= k < |cs| && e in Block(cs[k]) {
        var k :| 0 <= k < |cs| && e in Block(cs[k]);
        if k < |cs| - 1 {
          assert init[k] == cs[k];
        }
      }
    }
  }

  /** Start-up runs happen exactly for the configurations that ask for one,
      and every registration is one of a configuration's `backup_times`,
      whose action runs that configuration. */
  lemma PlanEvents(cs: seq<BackupConfig>, e: Event)
    ensures (e.Sweep? || e.Run?) ==>
      (e in Plan(cs) <==> e.config in cs && e.config.backupAtStartup)
    ensures e.Register? && e in Plan(cs) ==>
      && e.job.config in cs && e.job.at in e.job.config.backupTimes
      && Fire(e.job) == [Sweep(e.job.config), Run(e.job.config)]
  {
    BlocksMembers(cs, e);
    if e.Sweep? || e.Run? {
      if e.config in cs && e.config.backupAtStartup {
        var k :| 0 <= k < |cs| && cs[k] == e.config;
        assert e in Block(cs[k]);
      }
    }
  }

  /** In the plan, every sweep is immediately followed by the run of the same
      configuration. */
  lemma {:induction false} SweepThenRun(cs: seq<BackupConfig>, i: nat)
    requires i < |Plan(cs)| && Plan(cs)[i].Sweep?
    ensures i + 1 < |Blocks(cs)| && Plan(cs)[i + 1] == Run(Plan(cs)[i].config)
    decreases |cs|
  {
    StartOnlyAtEnd(cs);
    assert i < |Blocks(cs)|;
    var init := cs[..|cs| - 1];
    var c := cs[|cs| - 1];
    assert Blocks(cs) == Blocks(init) + Block(c);
    if i < |Blocks(init)| {
      assert Plan(init)[i] == Blocks(init)[i] == Blocks(cs)[i];
      SweepThenRun(init, i);
      assert Blocks(cs)[i + 1] == Blocks(init)[i + 1];
    } else {
      var j := i - |Blocks(init)|;
      assert Block(c)[j] == Blocks(cs)[i];
      assert c.backupAtStartup && j == 0;
    }
  }
}
