/** Every writer and reader of the store as a step machine over one shared tree.

    Imports (`store_blob`), downloads (`commit_artifact`), prunes and descriptor handoffs
    run as tasks of any number of processes; a step is one system call of one task, and any
    task may take the next step. The hash is a parameter of the machine. */
module StoreMachine {
  import opened Wrappers
  import opened Bytes
  import opened Strings
  import opened Digests
  import opened Filesystem
  import opened StageNames

  type Hash = seq<byte> -> Digest

  datatype Format = Gguf | Safetensors

  function Flat(format: Format, d: Digest): Path
  {
    if format.Safetensors? then FlatSafetensors(d) else FlatGguf(d)
  }

  /** What a staged file is for: an import with an optional expected digest, or a download
      committed in a format under a tag. */
  datatype Job =
    | Import(expected: Option<string>)
    | Download(format: Format, name: string, tag: string)

  /** A scanned blob in a prune's list. */
  datatype Entry = Entry(digest: Digest, size: nat)

  /** The local variables of a prune loop. */
  datatype Sweep = Sweep(todo: seq<Entry>, total: nat, reclaimed: nat, max: nat)

  /** Where a task is, with its local variables. `OpeningSource`, `OpeningDest` and `Overwriting`
      are the copy fallback of a commit whose hard link failed: it opens the source, then the
      destination by truncating or creating it, and then copies. */
  datatype Task =
    | Named(id: StageId, job: Job)
    | Writing(id: StageId, job: Job, ino: Inode, hashed: seq<byte>)
    | Probing(id: StageId, ino: Inode, digest: Digest, k: nat)
    | Moving(id: StageId, ino: Inode, digest: Digest, target: Path)
    | Committing(id: StageId, ino: Inode, digest: Digest, job: Job)
    | Unlinking(digest: Digest, job: Job)
    | Linking(digest: Digest, job: Job)
    | OpeningSource(digest: Digest, job: Job)
    | OpeningDest(digest: Digest, job: Job, source: Inode)
    | Overwriting(digest: Digest, job: Job, source: Inode, dest: Inode)
    | Tagging(digest: Digest, job: Job)
    | Pruning(sweep: Sweep)
    | DroppingStandard(entry: Entry, sweep: Sweep)
    | DroppingFlat(entry: Entry, sweep: Sweep, dropped: bool)
    | SizeProbing(digest: Digest, k: nat)
    | Sizing(digest: Digest, path: Path)
    | OpenProbing(digest: Digest, size: nat, k: nat)
    | Opening(digest: Digest, size: nat, path: Path)
    | Copying(digest: Digest, size: nat, ino: Inode, copied: seq<byte>)

  /** An ok reply of the handoff server: what it names, and the bytes sealed behind the descriptor. */
  datatype Reply = Reply(digest: Digest, size: nat, sealed: seq<byte>)

  type TaskId = nat
  type Pid = nat

  datatype State = State(
    fs: Fs,
    tasks: map<TaskId, Task>,
    owner: map<TaskId, Pid>,
    counters: map<(bool, Pid), nat>,
    pinned: set<Digest>,
    tags: map<(string, string), Digest>,
    sent: seq<Reply>)

  datatype Step =
    | StartImport(t: TaskId, pid: Pid, expected: Option<string>)
    | StartDownload(t: TaskId, pid: Pid, format: Format, name: string, tag: string,
                    safeName: string, safeTag: string, nanos: nat)
    | CreateStage(t: TaskId, unused: Inode)
    | WriteChunk(t: TaskId, chunk: seq<byte>)
    | Finish(t: TaskId)
    | Abandon(t: TaskId, cleanUp: bool)
    | Advance(t: TaskId)
    | StartPrune(t: TaskId, pid: Pid, scanned: seq<Entry>, total: nat, max: nat)
    | StartHandoff(t: TaskId, pid: Pid, digest: Digest)
    | CopyChunk(t: TaskId, n: nat)
    | OpenDest(t: TaskId, unused: Inode)
    | Pin(digest: Digest)
    | Unpin(digest: Digest)
    | Crash(pid: Pid)

  const INIT: State := State(Fs(map[], map[]), map[], map[], map[], {}, map[], [])

  function Counter(s: State, isImport: bool, pid: Pid): nat
  {
    if (isImport, pid) in s.counters then s.counters[(isImport, pid)] else if isImport then 0 else 1
  }

  function Goto(s: State, t: TaskId, task: Task): State
  {
    s.(tasks := s.tasks[t := task])
  }

  function End(s: State, t: TaskId): State
  {
    s.(tasks := s.tasks - {t})
  }

  function Start(s: State, t: TaskId, pid: Pid, task: Task): State
  {
    Goto(s, t, task).(owner := s.owner[t := pid])
  }

  /** A new staging task takes the next number of its process's counter. */
  function StartStaging(s: State, t: TaskId, pid: Pid, id: StageId, job: Job): State
  {
    Start(s, t, pid, Named(id, job)).(counters := s.counters[(id.Import?, pid) := Counter(s, id.Import?, pid) + 1])
  }

  function StagePath(id: StageId): Path
  {
    Stage(FileName(id))
  }

  predicate DigestAccepted(computed: Digest, expected: Option<string>)
  {
    expected.Some? ==> Lower(computed) == Lower(Trim(expected.value))
  }

  /** The end of the write loop: the digest is final; an import that expected another one
      removes its staging file and fails. */
  function Finished(h: Hash, s: State, t: TaskId, task: Task): State
    requires task.Writing?
  {
    var d := h(task.hashed);
    match task.job
    case Import(expected) =>
      if DigestAccepted(d, expected) then Goto(s, t, Probing(task.id, task.ino, d, 0))
      else End(s.(fs := Unlink(s.fs, StagePath(task.id))), t)
    case Download(_, _, _) => Goto(s, t, Committing(task.id, task.ino, d, task.job))
  }

  /** One `is_file` test of `blob_path`: the location found, or none of the first `k + 1`. */
  function Found(fs: Fs, d: Digest, k: nat): Option<Path>
  {
    if Location(d, k) in fs.files then Some(Location(d, k))
    else if k >= 2 then Some(Standard(d))
    else None
  }

  /** What one call of a task does: the tree and tags it leaves, and where the task continues. */
  datatype Effect = Effect(fs: Fs, tags: map<(string, string), Digest>, next: Option<Task>)

  function Then(s: State, task: Task): Option<Effect>
  {
    Some(Effect(s.fs, s.tags, Some(task)))
  }

  function ThenOn(s: State, fs: Fs, task: Task): Option<Effect>
  {
    Some(Effect(fs, s.tags, Some(task)))
  }

  function Stop(s: State, fs: Fs): Option<Effect>
  {
    Some(Effect(fs, s.tags, None))
  }

  function Applied(s: State, t: TaskId, e: Effect): State
  {
    var s' := s.(fs := e.fs, tags := e.tags);
    match e.next
    case None => End(s', t)
    case Some(task) => Goto(s', t, task)
  }

  /** The next system call of a task whose continuation is fixed; none when it cannot run. */
  function Call(s: State, task: Task): Option<Effect>
  {
    match task
    case Named(_, _) => None
    case Writing(_, _, _, _) => None
    case Copying(_, _, _, _) => None
    case OpeningDest(_, _, _) => None
    case Probing(id, ino, d, k) =>
      (match Found(s.fs, d, k)
       case Some(p) => Then(s, Moving(id, ino, d, p))
       case None => Then(s, Probing(id, ino, d, k + 1)))
    case Moving(id, _, _, target) =>
      if StagePath(id) !in s.fs.files then None
      else Stop(s, Rename(s.fs, StagePath(id), target))
    case Committing(id, _, d, job) =>
      if StagePath(id) !in s.fs.files || !job.Download? then None
      else ThenOn(s, Rename(s.fs, StagePath(id), Flat(job.format, d)), Unlinking(d, job))
    case Unlinking(d, job) =>
      if !job.Download? then None
      else ThenOn(s, Unlink(s.fs, Standard(d)), Linking(d, job))
    case Linking(d, job) =>
      if !job.Download? then None
      else if Flat(job.format, d) in s.fs.files && Standard(d) !in s.fs.files then
        ThenOn(s, Link(s.fs, Flat(job.format, d), Standard(d)), Tagging(d, job))
      else Then(s, OpeningSource(d, job))
    case OpeningSource(d, job) =>
      if !job.Download? then None
      else if Flat(job.format, d) in s.fs.files then
        Then(s, OpeningDest(d, job, s.fs.files[Flat(job.format, d)]))
      else Then(s, Tagging(d, job))
    case Overwriting(d, job, source, dest) =>
      if source !in s.fs.inodes || dest !in s.fs.inodes then None
      else ThenOn(s, Append(s.fs, dest, s.fs.inodes[source]), Tagging(d, job))
    case Tagging(d, job) =>
      if !job.Download? then None
      else Some(Effect(s.fs, s.tags[(job.name, job.tag) := d], None))
    case Pruning(sweep) =>
      if sweep.todo == [] || sweep.total <= sweep.max then Stop(s, s.fs)
      else
        var rest := sweep.(todo := sweep.todo[1..]);
        if IsPinned(s.pinned, sweep.todo[0].digest) then Then(s, Pruning(rest))
        else Then(s, DroppingStandard(sweep.todo[0], rest))
    case DroppingStandard(e, sweep) =>
      ThenOn(s, Unlink(s.fs, Standard(e.digest)), DroppingFlat(e, sweep, Standard(e.digest) in s.fs.files))
    case DroppingFlat(e, sweep, dropped) =>
      var gone := dropped || FlatGguf(e.digest) in s.fs.files;
      var counted := sweep.(total := SaturatingSub(sweep.total, e.size), reclaimed := sweep.reclaimed + e.size);
      ThenOn(s, Unlink(s.fs, FlatGguf(e.digest)), Pruning(if gone then counted else sweep))
    case SizeProbing(d, k) =>
      (match Found(s.fs, d, k)
       case Some(p) => Then(s, Sizing(d, p))
       case None => Then(s, SizeProbing(d, k + 1)))
    case Sizing(d, p) =>
      if p in s.fs.files && s.fs.files[p] in s.fs.inodes
      then Then(s, OpenProbing(d, |s.fs.inodes[s.fs.files[p]]|, 0))
      else Stop(s, s.fs)
    case OpenProbing(d, size, k) =>
      (match Found(s.fs, d, k)
       case Some(p) => Then(s, Opening(d, size, p))
       case None => Then(s, OpenProbing(d, size, k + 1)))
    case Opening(d, size, p) =>
      if p in s.fs.files then Then(s, Copying(d, size, s.fs.files[p], []))
      else Stop(s, s.fs)
  }

  function Advanced(s: State, t: TaskId, task: Task): Option<State>
  {
    match Call(s, task)
    case None => None
    case Some(e) => Some(Applied(s, t, e))
  }

  /** One read of the sealing copy; at the end of the file the reply is sent. */
  function Copied(s: State, t: TaskId, task: Task, n: nat): Option<State>
    requires task.Copying?
  {
    if task.ino !in s.fs.inodes then None
    else
      var content, done := s.fs.inodes[task.ino], |task.copied|;
      if done >= |content| then
        Some(End(s, t).(sent := s.sent + [Reply(task.digest, task.size, task.copied)]))
      else if 0 < n && done + n <= |content| then
        Some(Goto(s, t, task.(copied := task.copied + content[done..done + n])))
      else None
  }

  /** The copy fallback opens its destination for writing from scratch. */
  function DestOpened(s: State, t: TaskId, task: Task, unused: Inode): State
    requires task.OpeningDest?
  {
    var p := Standard(task.digest);
    var dest := if p in s.fs.files then s.fs.files[p] else unused;
    Goto(s.(fs := Create(s.fs, p, unused)), t, Overwriting(task.digest, task.job, task.source, dest))
  }

  /** The state after a step, or none when the step is not possible. */
  function Next(h: Hash, s: State, step: Step): Option<State>
  {
    match step
    case StartImport(t, pid, expected) =>
      if t in s.tasks then None
      else Some(StartStaging(s, t, pid, StageId.Import(pid, Counter(s, true, pid)), Job.Import(expected)))
    case StartDownload(t, pid, format, name, tag, safeName, safeTag, nanos) =>
      if t in s.tasks then None
      else Some(StartStaging(s, t, pid, StageId.Download(pid, Counter(s, false, pid), safeName, safeTag, nanos),
                             Job.Download(format, name, tag)))
    case CreateStage(t, unused) =>
      if t !in s.tasks || !s.tasks[t].Named? || unused in s.fs.inodes then None
      else
        var task := s.tasks[t];
        var p := StagePath(task.id);
        var ino := if p in s.fs.files then s.fs.files[p] else unused;
        Some(Goto(s.(fs := Create(s.fs, p, unused)), t, Writing(task.id, task.job, ino, [])))
    case WriteChunk(t, chunk) =>
      if t !in s.tasks || !s.tasks[t].Writing? || s.tasks[t].ino !in s.fs.inodes then None
      else
        var task := s.tasks[t];
        Some(Goto(s.(fs := Append(s.fs, task.ino, chunk)), t, task.(hashed := task.hashed + chunk)))
    case Finish(t) =>
      if t !in s.tasks || !s.tasks[t].Writing? then None
      else Some(Finished(h, s, t, s.tasks[t]))
    case Abandon(t, cleanUp) =>
      if t !in s.tasks || !(s.tasks[t].Named? || s.tasks[t].Writing?) then None
      else if cleanUp && s.tasks[t].Writing? then Some(End(s.(fs := Unlink(s.fs, StagePath(s.tasks[t].id))), t))
      else Some(End(s, t))
    case Advance(t) =>
      if t !in s.tasks then None else Advanced(s, t, s.tasks[t])
    case StartPrune(t, pid, scanned, total, max) =>
      if t in s.tasks then None else Some(Start(s, t, pid, Pruning(Sweep(scanned, total, 0, max))))
    case StartHandoff(t, pid, d) =>
      if t in s.tasks then None else Some(Start(s, t, pid, SizeProbing(d, 0)))
    case CopyChunk(t, n) =>
      if t !in s.tasks || !s.tasks[t].Copying? then None else Copied(s, t, s.tasks[t], n)
    case OpenDest(t, unused) =>
      if t !in s.tasks || !s.tasks[t].OpeningDest? || unused in s.fs.inodes then None
      else Some(DestOpened(s, t, s.tasks[t], unused))
    case Pin(d) =>
      if IsDigest(d) then Some(s.(pinned := s.pinned + {d})) else None
    case Unpin(d) =>
      if IsDigest(d) then Some(s.(pinned := s.pinned - {d})) else None
    case Crash(pid) =>
      var dead := set t | t in s.tasks && t in s.owner && s.owner[t] == pid;
      Some(s.(tasks := s.tasks - dead, counters := s.counters - {(true, pid), (false, pid)}))
  }

  /** The state after a whole schedule. */
  function Run(h: Hash, s: State, steps: seq<Step>): Option<State>
    decreases |steps|
  {
    if steps == [] then Some(s)
    else
      match Next(h, s, steps[0])
      case None => None
      case Some(s') => Run(h, s', steps[1..])
  }

  /** The step is a commit's copy fallback opening its destination, which leaves an empty file there. */
  predicate FallbackFires(s: State, step: Step)
  {
    step.OpenDest? && step.t in s.tasks && s.tasks[step.t].OpeningDest?
  }

  /** No step of the schedule fires the fallback. */
  predicate NoFallback(h: Hash, s: State, steps: seq<Step>)
    decreases |steps|
  {
    steps == [] || (!FallbackFires(s, steps[0]) &&
      match Next(h, s, steps[0])
      case None => true
      case Some(s') => NoFallback(h, s', steps[1..]))
  }
}
