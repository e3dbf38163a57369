/**
 * The cluster's task registry: every configured task gets a random handle, is filed under
 * its job and task id, and can be looked up by name, by (job, task id) or by handle.
 *
 * The task-name parser and the random number source are not modelled: the parser is a
 * partial function the caller supplies, and the random source is a supplied sequence of
 * 64-bit values read from a cursor.
 */
module Cluster {
  import opened Support

  newtype uint64 = x: int | 0 <= x < 0x1_0000_0000_0000_0000

  type TaskHandle = uint64

  /** TaskHandle::kInvalidTaskHandle, taken to be the handle with value 0. */
  const InvalidTaskHandle: TaskHandle := 0

  datatype TaskInfo = TaskInfo(handle: TaskHandle, name: string, address: string)

  datatype JobInfo = JobInfo(name: string, tasks: map<int, TaskInfo>)

  /** What a lookup could not find. */
  datatype Missing =
    | JobMissing(job: string, taskId: int)
    | TaskMissing(job: string, taskId: int)
    | HandleMissing(handle: TaskHandle)

  datatype ClusterError = TaskNotFound(missing: Missing) | ParseError(message: string)

  datatype ParsedName = ParsedName(job: string, taskId: int)

  /** TaskNameUtil::ParseTaskName: a full task name to its job and task id, or an error. */
  type TaskNameParser = string -> Result<ParsedName, string>

  /** The configuration: this process's task name, and each task's full name and address. */
  datatype ClusterConfiguration = ClusterConfiguration(taskName: string, taskAddresses: seq<(string, string)>)

  // ---------------------------------------------------------------------------
  // Task names

  function DigitChar(d: nat): (c: char)
    requires d < 10
    ensures '0' <= c <= '9' && c as int - '0' as int == d
  {
    "0123456789"[d]
  }

  /** The decimal digits of n, most significant first, with no leading zero. */
  function NatToDecimal(n: nat): (s: string)
    ensures |s| >= 1 && (|s| > 1 ==> s[0] != '0')
    ensures forall i | 0 <= i < |s| :: '0' <= s[i] <= '9'
  {
    if n < 10 then [DigitChar(n)] else NatToDecimal(n / 10) + [DigitChar(n % 10)]
  }

  /** The number a string of decimal digits denotes. */
  function DecimalValue(s: string): nat
    requires forall i | 0 <= i < |s| :: '0' <= s[i] <= '9'
  {
    if s == [] then 0 else DecimalValue(s[..|s| - 1]) * 10 + (s[|s| - 1] as int - '0' as int)
  }

  lemma {:induction false} DecimalRoundTrip(n: nat)
    ensures DecimalValue(NatToDecimal(n)) == n
  {
    if n >= 10 {
      var s := NatToDecimal(n);
      assert s[..|s| - 1] == NatToDecimal(n / 10);
      DecimalRoundTrip(n / 10);
    }
  }

  /** How an int is written into a string: decimal, with a leading '-' when negative. */
  function IntToDecimal(i: int): (s: string)
    ensures |s| >= 1 && (s[0] == '-' <==> i < 0)
  {
    if i < 0 then "-" + NatToDecimal(-i) else NatToDecimal(i)
  }

  lemma NatToDecimalInjective(a: nat, b: nat)
    requires NatToDecimal(a) == NatToDecimal(b)
    ensures a == b
  {
    DecimalRoundTrip(a);
    DecimalRoundTrip(b);
  }

  lemma IntToDecimalInjective(a: int, b: int)
    requires IntToDecimal(a) == IntToDecimal(b)
    ensures a == b
  {
    if a < 0 {
      var x, y := NatToDecimal(-a), NatToDecimal(-b);
      assert ("-" + x)[1..] == x && ("-" + y)[1..] == y;
      NatToDecimalInjective(-a, -b);
    } else {
      NatToDecimalInjective(a, b);
    }
  }

  /** The full name of task taskId of job: "/job:<job>/task:<taskId>". */
  function TaskName(job: string, taskId: int): string {
    "/job:" + job + "/task:" + IntToDecimal(taskId)
  }

  /** A task name reads back as its parts: the job, then the task id in decimal. */
  lemma TaskNameParts(job: string, taskId: int)
    ensures |TaskName(job, taskId)| == 11 + |job| + |IntToDecimal(taskId)|
    ensures TaskName(job, taskId)[..5] == "/job:" && TaskName(job, taskId)[5..5 + |job|] == job
    ensures TaskName(job, taskId)[5 + |job|..11 + |job|] == "/task:"
    ensures TaskName(job, taskId)[11 + |job|..] == IntToDecimal(taskId)
  {
  }

  /** Two tasks of one job with different ids have different full names. */
  lemma TaskNamesDiffer(job: string, a: int, b: int)
    requires a != b
    ensures TaskName(job, a) != TaskName(job, b)
  {
    if TaskName(job, a) == TaskName(job, b) {
      TaskNameParts(job, a);
      TaskNameParts(job, b);
      IntToDecimalInjective(a, b);
    }
  }

  // ---------------------------------------------------------------------------
  // Handles

  /** The values of a random sequence that are valid task handles, in order. */
  function ValidHandles(values: seq<uint64>): seq<TaskHandle> {
    if values == [] then []
    else (if values[0] != InvalidTaskHandle then [values[0]] else []) + ValidHandles(values[1..])
  }

  /**
   * GetNewTaskHandle: draw random values from position pos on until one is a valid
   * handle, and return it with the position after it. random must still hold a valid
   * value from pos on.
   */
  method GetNewTaskHandle(random: seq<uint64>, pos: nat) returns (handle: TaskHandle, next: nat)
    requires pos <= |random| && ValidHandles(random[pos..]) != []
    ensures pos < next <= |random|
    ensures handle == random[next - 1] && handle != InvalidTaskHandle
    ensures forall k | pos <= k < next - 1 :: random[k] == InvalidTaskHandle
    ensures ValidHandles(random[pos..]) == [handle] + ValidHandles(random[next..])
  {
    assert random[pos..][1..] == random[pos + 1..];
    handle := random[pos];
    next := pos + 1;
    while handle == InvalidTaskHandle
      invariant pos < next <= |random|
      invariant handle == random[next - 1]
      invariant forall k | pos <= k < next - 1 :: random[k] == InvalidTaskHandle
      invariant ValidHandles(random[pos..]) ==
                (if handle != InvalidTaskHandle then [handle] else []) + ValidHandles(random[next..])
      decreases |random| - next
    {
      assert random[next..][1..] == random[next + 1..];
      handle := random[next];
      next := next + 1;
    }
  }

  /** Drawing one more handle moves it from the undrawn valid values to the drawn ones. */
  lemma DrawStep(random: seq<uint64>, drawn: seq<TaskHandle>, pos: nat, next: nat, h: TaskHandle)
    requires pos <= next <= |random|
    requires ValidHandles(random) == drawn + ValidHandles(random[pos..])
    requires ValidHandles(random[pos..]) == [h] + ValidHandles(random[next..])
    ensures ValidHandles(random) == (drawn + [h]) + ValidHandles(random[next..])
  {
  }

  // ---------------------------------------------------------------------------
  // The registry a configuration builds

  /**
   * What construction demands of the configuration: every task name parses (a bad name is
   * fatal) and no two names denote the same job and task id (a duplicate fails an
   * assertion).
   */
  ghost predicate WellFormed(config: ClusterConfiguration, parse: TaskNameParser) {
    Parses(config, parse) && Distinct(config, parse)
  }

  /** Every configured task name parses. */
  ghost predicate Parses(config: ClusterConfiguration, parse: TaskNameParser) {
    forall k | 0 <= k < |config.taskAddresses| :: parse(config.taskAddresses[k].0).Ok?
  }

  /** No two configured task names parse to the same job and task id. */
  ghost predicate Distinct(config: ClusterConfiguration, parse: TaskNameParser) {
    forall k, k' | 0 <= k < k' < |config.taskAddresses| ::
      parse(config.taskAddresses[k].0) != parse(config.taskAddresses[k'].0)
  }

  /** The job and task id configured task k's name parses to. */
  function Parsed(config: ClusterConfiguration, parse: TaskNameParser, k: nat): ParsedName
    requires k < |config.taskAddresses| && parse(config.taskAddresses[k].0).Ok?
  {
    parse(config.taskAddresses[k].0).value
  }

  /** The TaskInfo made for configured task k when it is given handle h. */
  function Info(config: ClusterConfiguration, parse: TaskNameParser, k: nat, h: TaskHandle): TaskInfo
    requires k < |config.taskAddresses| && parse(config.taskAddresses[k].0).Ok?
  {
    var p := Parsed(config, parse, k);
    TaskInfo(h, TaskName(p.job, p.taskId), config.taskAddresses[k].1)
  }

  /**
   * The TaskInfo of configured task k carries the handle drawn for it, its configured
   * address, and the name "/job:<job>/task:<task id>" of its parsed job and task id.
   */
  lemma InfoFields(config: ClusterConfiguration, parse: TaskNameParser, k: nat, h: TaskHandle)
    requires k < |config.taskAddresses| && parse(config.taskAddresses[k].0).Ok?
    ensures var i, p := Info(config, parse, k, h), Parsed(config, parse, k);
      && i.handle == h && i.address == config.taskAddresses[k].1
      && |i.name| == 11 + |p.job| + |IntToDecimal(p.taskId)|
      && i.name[..5] == "/job:" && i.name[5..5 + |p.job|] == p.job
      && i.name[5 + |p.job|..11 + |p.job|] == "/task:"
      && i.name[11 + |p.job|..] == IntToDecimal(p.taskId)
  {
    var p := Parsed(config, parse, k);
    TaskNameParts(p.job, p.taskId);
  }

  /** No task before k was given the handle task k was given. */
  predicate FirstWith(handles: seq<TaskHandle>, k: nat)
    requires k < |handles|
  {
    forall k' | 0 <= k' < k :: handles[k'] != handles[k]
  }

  /** Configured task k is filed under its job and task id, with handle h. */
  ghost predicate Filed(config: ClusterConfiguration, parse: TaskNameParser,
                        jobs: map<string, JobInfo>, k: nat, h: TaskHandle)
    requires Parses(config, parse) && k < |config.taskAddresses|
  {
    var p := Parsed(config, parse, k);
    p.job in jobs && p.taskId in jobs[p.job].tasks && jobs[p.job].tasks[p.taskId] == Info(config, parse, k, h)
  }

  /** The jobs of the first n configured tasks. */
  ghost function JobsOf(config: ClusterConfiguration, parse: TaskNameParser, n: nat): set<string>
    requires Parses(config, parse) && n <= |config.taskAddresses|
  {
    set k | 0 <= k < n :: Parsed(config, parse, k).job
  }

  /** The task ids of job j among the first n configured tasks. */
  ghost function IdsOf(config: ClusterConfiguration, parse: TaskNameParser, n: nat, j: string): set<int>
    requires Parses(config, parse) && n <= |config.taskAddresses|
  {
    set k | 0 <= k < n && Parsed(config, parse, k).job == j :: Parsed(config, parse, k).taskId
  }

  /**
   * The job map after the first n configured tasks were filed, task k with handle
   * handles[k]: each is filed under its job and id, and the jobs and ids filed are exactly
   * theirs.
   */
  ghost predicate JobsRegistered(config: ClusterConfiguration, parse: TaskNameParser, n: nat,
                                 jobs: map<string, JobInfo>, handles: seq<TaskHandle>)
    requires Parses(config, parse) && n <= |config.taskAddresses| && |handles| == n
  {
    && (forall k | 0 <= k < n :: Filed(config, parse, jobs, k, handles[k]))
    && (forall j | j in jobs :: jobs[j].name == j)
    && jobs.Keys == JobsOf(config, parse, n)
    && (forall j | j in jobs :: jobs[j].tasks.Keys == IdsOf(config, parse, n, j))
  }

  /**
   * The handle index after the first n configured tasks: exactly their handles, each
   * mapped to the first task that got it.
   */
  ghost predicate IndexRegistered(config: ClusterConfiguration, parse: TaskNameParser, n: nat,
                                  tasks: map<TaskHandle, TaskInfo>, handles: seq<TaskHandle>)
    requires Parses(config, parse) && n <= |config.taskAddresses| && |handles| == n
  {
    && tasks.Keys == (set x | x in handles)
    && (forall k | 0 <= k < n && FirstWith(handles, k) :: tasks[handles[k]] == Info(config, parse, k, handles[k]))
  }

  /** The local handle: that of the configured task named like this process, if one was seen. */
  ghost predicate LocalRegistered(config: ClusterConfiguration, n: nat, local: Option<TaskHandle>,
                                  handles: seq<TaskHandle>)
    requires n <= |config.taskAddresses| && |handles| == n
  {
    && (forall k | 0 <= k < n && config.taskAddresses[k].0 == config.taskName :: local == Some(handles[k]))
    && ((forall k | 0 <= k < n :: config.taskAddresses[k].0 != config.taskName) ==> local == None)
  }

  /** The whole registry after the first n configured tasks, task k with handle handles[k]. */
  ghost predicate Registered(config: ClusterConfiguration, parse: TaskNameParser, n: nat,
                             jobs: map<string, JobInfo>, tasks: map<TaskHandle, TaskInfo>,
                             local: Option<TaskHandle>, handles: seq<TaskHandle>)
    requires Parses(config, parse) && n <= |config.taskAddresses|
  {
    && |handles| == n
    && (forall k | 0 <= k < n :: handles[k] != InvalidTaskHandle)
    && JobsRegistered(config, parse, n, jobs, handles)
    && IndexRegistered(config, parse, n, tasks, handles)
    && LocalRegistered(config, n, local, handles)
  }

  /** The two try_emplace calls that file a task under its job and id. */
  ghost function FileTask(jobs: map<string, JobInfo>, p: ParsedName, info: TaskInfo): map<string, JobInfo> {
    var job := if p.job in jobs then jobs[p.job] else JobInfo(p.job, map[]);
    jobs[p.job := JobInfo(job.name, job.tasks[p.taskId := info])]
  }

  /** The job map try_emplace'd with p.job, then with the task under it, is FileTask's. */
  lemma FileTaskByEmplace(jobs: map<string, JobInfo>, emplaced: map<string, JobInfo>, p: ParsedName, info: TaskInfo)
    requires emplaced == if p.job in jobs then jobs else jobs[p.job := JobInfo(p.job, map[])]
    ensures emplaced[p.job := JobInfo(emplaced[p.job].name, emplaced[p.job].tasks[p.taskId := info])]
            == FileTask(jobs, p, info)
  {
  }

  lemma JobsOfStep(config: ClusterConfiguration, parse: TaskNameParser, n: nat)
    requires Parses(config, parse) && n < |config.taskAddresses|
    ensures JobsOf(config, parse, n + 1) == JobsOf(config, parse, n) + {Parsed(config, parse, n).job}
  {
    forall j | j in JobsOf(config, parse, n + 1) ensures j in JobsOf(config, parse, n) + {Parsed(config, parse, n).job} {
      var k :| 0 <= k < n + 1 && Parsed(config, parse, k).job == j;
      if k < n { assert j in JobsOf(config, parse, n); }
    }
  }

  lemma IdsOfStep(config: ClusterConfiguration, parse: TaskNameParser, n: nat, j: string)
    requires Parses(config, parse) && n < |config.taskAddresses|
    ensures var p := Parsed(config, parse, n);
            IdsOf(config, parse, n + 1, j) == IdsOf(config, parse, n, j) + (if p.job == j then {p.taskId} else {})
  {
    var p := Parsed(config, parse, n);
    forall id | id in IdsOf(config, parse, n + 1, j)
      ensures id in IdsOf(config, parse, n, j) || (j == p.job && id == p.taskId)
    {
      var k :| 0 <= k < n + 1 && Parsed(config, parse, k).job == j && Parsed(config, parse, k).taskId == id;
      if k < n { assert id in IdsOf(config, parse, n, j); }
    }
    if j == p.job {
      assert p.taskId in IdsOf(config, parse, n + 1, j);
    }
  }

  lemma FiledStep(config: ClusterConfiguration, parse: TaskNameParser, n: nat,
                  jobs: map<string, JobInfo>, handles: seq<TaskHandle>, h: TaskHandle)
    requires WellFormed(config, parse) && n < |config.taskAddresses| && |handles| == n
    requires forall k | 0 <= k < n :: Filed(config, parse, jobs, k, handles[k])
    ensures forall k | 0 <= k < n + 1 ::
      Filed(config, parse, FileTask(jobs, Parsed(config, parse, n), Info(config, parse, n, h)), k, (handles + [h])[k])
  {
    var p := Parsed(config, parse, n);
    var jobs' := FileTask(jobs, p, Info(config, parse, n, h));
    var handles' := handles + [h];
    forall k | 0 <= k < n + 1
      ensures Filed(config, parse, jobs', k, handles'[k])
    {
      if k < n {
        assert Filed(config, parse, jobs, k, handles[k]);
        var q := Parsed(config, parse, k);
        if q.job == p.job {
          assert parse(config.taskAddresses[k].0) != parse(config.taskAddresses[n].0);
        }
      }
    }
  }

  /** Filing task n adds its job to the jobs and its id to that job's ids, and nothing else. */
  lemma JobsShapeStep(config: ClusterConfiguration, parse: TaskNameParser, n: nat,
                      jobs: map<string, JobInfo>, info: TaskInfo)
    requires Parses(config, parse) && n < |config.taskAddresses|
    requires forall j | j in jobs :: jobs[j].name == j
    requires jobs.Keys == JobsOf(config, parse, n)
    requires forall j | j in jobs :: jobs[j].tasks.Keys == IdsOf(config, parse, n, j)
    ensures var jobs' := FileTask(jobs, Parsed(config, parse, n), info);
            && (forall j | j in jobs' :: jobs'[j].name == j)
            && jobs'.Keys == JobsOf(config, parse, n + 1)
            && (forall j | j in jobs' :: jobs'[j].tasks.Keys == IdsOf(config, parse, n + 1, j))
  {
    var p := Parsed(config, parse, n);
    var jobs' := FileTask(jobs, p, info);
    JobsOfStep(config, parse, n);
    forall j | j in jobs'
      ensures jobs'[j].tasks.Keys == IdsOf(config, parse, n + 1, j)
    {
      IdsOfStep(config, parse, n, j);
      if j != p.job {
        assert j in jobs;
      }
    }
  }

  lemma JobsStep(config: ClusterConfiguration, parse: TaskNameParser, n: nat,
                 jobs: map<string, JobInfo>, handles: seq<TaskHandle>, h: TaskHandle)
    requires WellFormed(config, parse) && n < |config.taskAddresses| && |handles| == n
    requires JobsRegistered(config, parse, n, jobs, handles)
    ensures JobsRegistered(config, parse, n + 1,
                           FileTask(jobs, Parsed(config, parse, n), Info(config, parse, n, h)), handles + [h])
  {
    JobsShapeStep(config, parse, n, jobs, Info(config, parse, n, h));
    FiledStep(config, parse, n, jobs, handles, h);
  }

  lemma IndexStep(config: ClusterConfiguration, parse: TaskNameParser, n: nat,
                  tasks: map<TaskHandle, TaskInfo>, handles: seq<TaskHandle>, h: TaskHandle)
    requires Parses(config, parse) && n < |config.taskAddresses| && |handles| == n
    requires IndexRegistered(config, parse, n, tasks, handles)
    ensures IndexRegistered(config, parse, n + 1,
                            if h in tasks then tasks else tasks[h := Info(config, parse, n, h)], handles + [h])
  {
    var handles' := handles + [h];
    assert (set x | x in handles') == (set x | x in handles) + {h};
    IndexFirstStep(config, parse, n, tasks, handles, h);
  }

  lemma IndexFirstStep(config: ClusterConfiguration, parse: TaskNameParser, n: nat,
                       tasks: map<TaskHandle, TaskInfo>, handles: seq<TaskHandle>, h: TaskHandle)
    requires Parses(config, parse) && n < |config.taskAddresses| && |handles| == n
    requires IndexRegistered(config, parse, n, tasks, handles)
    ensures var tasks' := if h in tasks then tasks else tasks[h := Info(config, parse, n, h)];
            forall k | 0 <= k < n + 1 && FirstWith(handles + [h], k) ::
              (handles + [h])[k] in tasks' && tasks'[(handles + [h])[k]] == Info(config, parse, k, (handles + [h])[k])
  {
    var handles' := handles + [h];
    var tasks' := if h in tasks then tasks else tasks[h := Info(config, parse, n, h)];
    if h in tasks {
      // a handle drawn again: the earlier task keeps it
      var k' :| 0 <= k' < n && handles[k'] == h;
      assert handles'[k'] == handles'[n];
    }
    forall k | 0 <= k < n + 1 && FirstWith(handles', k)
      ensures handles'[k] in tasks' && tasks'[handles'[k]] == Info(config, parse, k, handles'[k])
    {
      if k < n {
        FirstWithPrefix(handles, h, k);
        assert handles[k] in tasks;
      }
    }
  }

  /** Extending the handle sequence keeps who got each handle first. */
  lemma FirstWithPrefix(handles: seq<TaskHandle>, h: TaskHandle, k: nat)
    requires k < |handles|
    ensures FirstWith(handles + [h], k) == FirstWith(handles, k)
    ensures (handles + [h])[k] == handles[k]
  {
    var handles' := handles + [h];
    forall k' | 0 <= k' < k ensures handles'[k'] == handles[k'] {}
  }

  lemma LocalStep(config: ClusterConfiguration, n: nat, local: Option<TaskHandle>,
                  handles: seq<TaskHandle>, h: TaskHandle)
    requires n < |config.taskAddresses| && |handles| == n
    requires forall k | 0 <= k < n :: config.taskAddresses[k].0 != config.taskAddresses[n].0
    requires LocalRegistered(config, n, local, handles)
    ensures LocalRegistered(config, n + 1,
                            if config.taskAddresses[n].0 == config.taskName then Some(h) else local, handles + [h])
  {
    var handles' := handles + [h];
    forall k | 0 <= k < n ensures handles'[k] == handles[k] {}
  }

  /** One loop iteration of construction keeps the registry in step with the configuration. */
  lemma RegisteredStep(config: ClusterConfiguration, parse: TaskNameParser, n: nat,
                       jobs: map<string, JobInfo>, tasks: map<TaskHandle, TaskInfo>,
                       local: Option<TaskHandle>, handles: seq<TaskHandle>, h: TaskHandle)
    requires WellFormed(config, parse) && n < |config.taskAddresses| && h != InvalidTaskHandle
    requires Registered(config, parse, n, jobs, tasks, local, handles)
    ensures Registered(config, parse, n + 1,
                       FileTask(jobs, Parsed(config, parse, n), Info(config, parse, n, h)),
                       if h in tasks then tasks else tasks[h := Info(config, parse, n, h)],
                       if config.taskAddresses[n].0 == config.taskName then Some(h) else local,
                       handles + [h])
  {
    JobsStep(config, parse, n, jobs, handles, h);
    IndexStep(config, parse, n, tasks, handles, h);
    forall k | 0 <= k < n ensures config.taskAddresses[k].0 != config.taskAddresses[n].0 {
      assert parse(config.taskAddresses[k].0) != parse(config.taskAddresses[n].0);
    }
    LocalStep(config, n, local, handles, h);
  }

  /**
   * One pass of the constructor's loop: parse configured task i's name, file it under its
   * job and task id with a handle drawn from random at pos, index it by that handle unless
   * the handle was drawn before, and note it as this process's task if the names match.
   */
  method RegisterTask(config: ClusterConfiguration, parse: TaskNameParser, random: seq<uint64>,
                      i: nat, pos: nat, jobs: map<string, JobInfo>, tasks: map<TaskHandle, TaskInfo>,
                      local: Option<TaskHandle>, ghost handles: seq<TaskHandle>)
    returns (jobs': map<string, JobInfo>, tasks': map<TaskHandle, TaskInfo>,
             local': Option<TaskHandle>, pos': nat, h: TaskHandle)
    requires WellFormed(config, parse) && i < |config.taskAddresses| && pos <= |random|
    requires |ValidHandles(random)| >= |config.taskAddresses|
    requires ValidHandles(random) == handles + ValidHandles(random[pos..])
    requires Registered(config, parse, i, jobs, tasks, local, handles)
    ensures pos' <= |random| && ValidHandles(random) == (handles + [h]) + ValidHandles(random[pos'..])
    ensures Registered(config, parse, i + 1, jobs', tasks', local', handles + [h])
  {
    var (name, address) := config.taskAddresses[i];
    var p := parse(name).value;
    assert p == Parsed(config, parse, i);
    jobs', tasks', local' := jobs, tasks, local;
    // try_emplace: a job seen before keeps its JobInfo
    if p.job !in jobs' {
      jobs' := jobs'[p.job := JobInfo(p.job, map[])];
    }
    ghost var emplaced := jobs';
    assert |ValidHandles(random)| == i + |ValidHandles(random[pos..])|;
    h, pos' := GetNewTaskHandle(random, pos);
    DrawStep(random, handles, pos, pos', h);
    var info := TaskInfo(h, TaskName(p.job, p.taskId), address);
    jobs' := jobs'[p.job := JobInfo(jobs'[p.job].name, jobs'[p.job].tasks[p.taskId := info])];
    // try_emplace: a handle drawn before keeps the task it was given to
    if h !in tasks' {
      tasks' := tasks'[h := info];
    }
    if name == config.taskName {
      local' := Some(h);
    }
    RegisteredStep(config, parse, i, jobs, tasks, local, handles, h);
    assert info == Info(config, parse, i, h);
    FileTaskByEmplace(jobs, emplaced, p, info);
  }

  class ClusterInfo {
    var jobs: map<string, JobInfo>
    var tasks: map<TaskHandle, TaskInfo>
    /** task_handle_: the handle of this process's own task; None while never assigned. */
    var taskHandle: Option<TaskHandle>
    /** The handle given to each configured task, in the order the configuration's tasks are iterated. */
    ghost var handles: seq<TaskHandle>

    /** This registry is the one config builds. */
    ghost predicate Built(config: ClusterConfiguration, parse: TaskNameParser)
      reads this
      requires WellFormed(config, parse)
    {
      Registered(config, parse, |config.taskAddresses|, jobs, tasks, taskHandle, handles)
    }

    /**
     * ClusterInfo(cluster_config): registers the configured tasks in order, each with a
     * fresh handle drawn from random. random must hold a valid handle for every task.
     */
    constructor (config: ClusterConfiguration, parse: TaskNameParser, random: seq<uint64>)
      requires WellFormed(config, parse)
      requires |ValidHandles(random)| >= |config.taskAddresses|
      ensures Built(config, parse)
      ensures handles == ValidHandles(random)[..|config.taskAddresses|]
    {
      var js: map<string, JobInfo> := map[];
      var ts: map<TaskHandle, TaskInfo> := map[];
      var local: Option<TaskHandle> := None;
      ghost var given: seq<TaskHandle> := [];
      var pos: nat := 0;
      var i := 0;
      var n := |config.taskAddresses|;
      while i < n
        invariant 0 <= i <= n && pos <= |random|
        invariant ValidHandles(random) == given + ValidHandles(random[pos..])
        invariant Registered(config, parse, i, js, ts, local, given)
      {
        var h;
        js, ts, local, pos, h := RegisterTask(config, parse, random, i, pos, js, ts, local, given);
        given := given + [h];
        i := i + 1;
      }
      assert given == ValidHandles(random)[..n];
      jobs, tasks, taskHandle, handles := js, ts, local, given;
    }

    /** GetTaskHandle(job_name, task_id). */
    function GetTaskHandle(job: string, taskId: int): (r: Result<TaskHandle, ClusterError>)
      reads this
      ensures job !in jobs ==> r == Err(TaskNotFound(JobMissing(job, taskId)))
      ensures job in jobs && taskId !in jobs[job].tasks ==> r == Err(TaskNotFound(TaskMissing(job, taskId)))
      ensures r.Ok? <==> job in jobs && taskId in jobs[job].tasks
      ensures r.Ok? ==> r.value == jobs[job].tasks[taskId].handle
    {
      if job !in jobs then Err(TaskNotFound(JobMissing(job, taskId)))
      else if taskId !in jobs[job].tasks then Err(TaskNotFound(TaskMissing(job, taskId)))
      else Ok(jobs[job].tasks[taskId].handle)
    }

    /** GetTaskHandle(task_name): the parser's error, or the lookup of the parsed name. */
    function GetTaskHandleByName(parse: TaskNameParser, name: string): (r: Result<TaskHandle, ClusterError>)
      reads this
      ensures parse(name).Err? ==> r == Err(ParseError(parse(name).error))
      ensures parse(name).Ok? ==> r == GetTaskHandle(parse(name).value.job, parse(name).value.taskId)
    {
      match parse(name)
      case Err(e) => Err(ParseError(e))
      case Ok(p) => GetTaskHandle(p.job, p.taskId)
    }

    function GetTaskName(h: TaskHandle): (r: Result<string, ClusterError>)
      reads this
      ensures r.Ok? <==> h in tasks
      ensures r.Ok? ==> r.value == tasks[h].name
      ensures r.Err? ==> r.error == TaskNotFound(HandleMissing(h))
    {
      if h !in tasks then Err(TaskNotFound(HandleMissing(h))) else Ok(tasks[h].name)
    }

    function GetTaskAddress(h: TaskHandle): (r: Result<string, ClusterError>)
      reads this
      ensures r.Ok? <==> h in tasks
      ensures r.Ok? ==> r.value == tasks[h].address
      ensures r.Err? ==> r.error == TaskNotFound(HandleMissing(h))
    {
      if h !in tasks then Err(TaskNotFound(HandleMissing(h))) else Ok(tasks[h].address)
    }
  }

  // ---------------------------------------------------------------------------
  // What lookups on a built registry answer

  /** A configured task is found by its job and task id, and by its full name, with its handle. */
  lemma ConfiguredTaskFound(c: ClusterInfo, config: ClusterConfiguration, parse: TaskNameParser, k: nat)
    requires WellFormed(config, parse) && c.Built(config, parse) && k < |config.taskAddresses|
    ensures c.GetTaskHandle(Parsed(config, parse, k).job, Parsed(config, parse, k).taskId) == Ok(c.handles[k])
    ensures c.GetTaskHandleByName(parse, config.taskAddresses[k].0) == Ok(c.handles[k])
  {
    var n := |config.taskAddresses|;
    assert Filed(config, parse, c.jobs, k, c.handles[k]);
  }

  /**
   * Looking a task up by job and task id succeeds exactly for the configured tasks; it
   * reports the job as missing exactly when no configured task belongs to that job.
   */
  lemma LookupByJobAndTaskId(c: ClusterInfo, config: ClusterConfiguration, parse: TaskNameParser,
                             job: string, taskId: int)
    requires WellFormed(config, parse) && c.Built(config, parse)
    ensures c.GetTaskHandle(job, taskId).Ok? <==>
            exists k | 0 <= k < |config.taskAddresses| :: Parsed(config, parse, k) == ParsedName(job, taskId)
    ensures c.GetTaskHandle(job, taskId) == Err(TaskNotFound(JobMissing(job, taskId))) <==>
            forall k | 0 <= k < |config.taskAddresses| :: Parsed(config, parse, k).job != job
  {
    var n := |config.taskAddresses|;
    if job in c.jobs {
      assert job in JobsOf(config, parse, n);
      if taskId in c.jobs[job].tasks {
        assert taskId in IdsOf(config, parse, n, job);
      }
    }
  }

  /**
   * The task a handle names is the first configured task that was given it: its full name
   * and its address are found by the handle.
   */
  lemma HandleFindsTask(c: ClusterInfo, config: ClusterConfiguration, parse: TaskNameParser, k: nat)
    requires WellFormed(config, parse) && c.Built(config, parse) && k < |config.taskAddresses|
    requires FirstWith(c.handles, k)
    ensures c.GetTaskName(c.handles[k]) ==
            Ok(TaskName(Parsed(config, parse, k).job, Parsed(config, parse, k).taskId))
    ensures c.GetTaskAddress(c.handles[k]) == Ok(config.taskAddresses[k].1)
  {
  }

  /**
   * A handle no configured task was given finds nothing, by name or by address; in
   * particular the invalid handle never finds a task.
   */
  lemma UnknownHandleNotFound(c: ClusterInfo, config: ClusterConfiguration, parse: TaskNameParser, h: TaskHandle)
    requires WellFormed(config, parse) && c.Built(config, parse)
    ensures c.GetTaskName(h).Err? <==> h !in c.handles
    ensures h !in c.handles ==> c.GetTaskAddress(h) == Err(TaskNotFound(HandleMissing(h)))
    ensures c.GetTaskName(InvalidTaskHandle) == Err(TaskNotFound(HandleMissing(InvalidTaskHandle)))
  {
  }

  /**
   * This process's own handle is set exactly when one configured task has its name, and is
   * that task's handle.
   */
  lemma LocalTaskHandle(c: ClusterInfo, config: ClusterConfiguration, parse: TaskNameParser)
    requires WellFormed(config, parse) && c.Built(config, parse)
    ensures c.taskHandle.Some? <==>
            exists k | 0 <= k < |config.taskAddresses| :: config.taskAddresses[k].0 == config.taskName
    ensures forall k | 0 <= k < |config.taskAddresses| && config.taskAddresses[k].0 == config.taskName ::
              c.taskHandle == Some(c.handles[k])
  {
  }
}
