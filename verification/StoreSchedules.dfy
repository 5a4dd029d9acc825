/** Building schedules step by step. */
module StoreSchedules {
  import opened Wrappers
  import opened Filesystem
  import opened StageNames
  import opened StoreMachine

  lemma {:induction false} RunSnoc(h: Hash, s: State, steps: seq<Step>, step: Step)
    requires Run(h, s, steps).Some? && NoFallback(h, s, steps)
    ensures Run(h, s, steps + [step]) == Next(h, Run(h, s, steps).value, step)
    ensures !FallbackFires(Run(h, s, steps).value, step) ==> NoFallback(h, s, steps + [step])
    decreases |steps|
  {
    if steps == [] {
      assert Run(h, s, [step]) == match Next(h, s, step) case None => None case Some(s') => Run(h, s', [step][1..]);
    } else {
      RunSnoc(h, Next(h, s, steps[0]).value, steps[1..], step);
      assert (steps + [step])[1..] == steps[1..] + [step];
    }
  }

  /** The states of a schedule, extended by one step that does not fire the fallback. */
  lemma Extend(h: Hash, steps: seq<Step>, s: State, step: Step) returns (steps': seq<Step>, s': State)
    requires Run(h, INIT, steps) == Some(s) && NoFallback(h, INIT, steps)
    requires Next(h, s, step).Some? && !FallbackFires(s, step)
    ensures steps' == steps + [step] && s' == Next(h, s, step).value
    ensures Run(h, INIT, steps') == Some(s') && NoFallback(h, INIT, steps')
  {
    RunSnoc(h, INIT, steps, step);
    steps', s' := steps + [step], Next(h, s, step).value;
  }

  /** The same for the next call of a task. */
  lemma ExtendCall(h: Hash, steps: seq<Step>, s: State, t: TaskId) returns (steps': seq<Step>, s': State)
    requires Run(h, INIT, steps) == Some(s) && NoFallback(h, INIT, steps)
    requires t in s.tasks && Call(s, s.tasks[t]).Some?
    ensures steps' == steps + [Advance(t)] && s' == Applied(s, t, Call(s, s.tasks[t]).value)
    ensures Run(h, INIT, steps') == Some(s') && NoFallback(h, INIT, steps')
  {
    steps', s' := Extend(h, steps, s, Advance(t));
  }

  ghost predicate Reached(h: Hash, steps: seq<Step>, s: State)
  {
    Run(h, INIT, steps) == Some(s) && NoFallback(h, INIT, steps)
  }

  // ----- One download of a one-byte file, from any state

  const JOB: Job := Job.Download(Format.Gguf, [], [])

  /** The name process `t` stages its next download under. */
  function NextId(s: State, t: TaskId): StageId
  {
    StageId.Download(t, Counter(s, false, t), [], [], 0)
  }

  /** Task `t` is at `task`; everything else of `s0` is as it was, the path `own` aside. */
  ghost predicate With(s0: State, s: State, t: TaskId, task: Task, own: Path)
  {
    && s.tasks == s0.tasks[t := task] && s.pinned == s0.pinned
    && s.counters.Keys <= s0.counters.Keys + {(false, t)}
    && forall p | p != own :: p in s.fs.files <==> p in s0.fs.files
  }

  lemma Started(h: Hash, steps0: seq<Step>, s0: State, t: TaskId) returns (steps: seq<Step>, s: State)
    requires Reached(h, steps0, s0) && t !in s0.tasks
    ensures Reached(h, steps, s) && s.fs == s0.fs
    ensures With(s0, s, t, Named(NextId(s0, t), JOB), StagePath(NextId(s0, t)))
  {
    steps, s := Extend(h, steps0, s0, StartDownload(t, t, Format.Gguf, [], [], [], [], 0));
  }

  lemma Created(h: Hash, steps0: seq<Step>, s0: State, t: TaskId, ino: Inode) returns (steps: seq<Step>, s: State)
    requires Reached(h, steps0, s0) && t !in s0.tasks && ino !in s0.fs.inodes
    requires StagePath(NextId(s0, t)) !in s0.fs.files
    ensures Reached(h, steps, s) && s.fs.inodes.Keys == s0.fs.inodes.Keys + {ino}
    ensures With(s0, s, t, Writing(NextId(s0, t), JOB, ino, []), StagePath(NextId(s0, t)))
    ensures StagePath(NextId(s0, t)) in s.fs.files
  {
    steps, s := Started(h, steps0, s0, t);
    steps, s := Extend(h, steps, s, CreateStage(t, ino));
  }

  lemma Written(h: Hash, steps0: seq<Step>, s0: State, t: TaskId, ino: Inode) returns (steps: seq<Step>, s: State)
    requires Reached(h, steps0, s0) && t !in s0.tasks && ino !in s0.fs.inodes
    requires StagePath(NextId(s0, t)) !in s0.fs.files
    ensures Reached(h, steps, s) && s.fs.inodes.Keys == s0.fs.inodes.Keys + {ino}
    ensures With(s0, s, t, Writing(NextId(s0, t), JOB, ino, [0]), StagePath(NextId(s0, t)))
    ensures StagePath(NextId(s0, t)) in s.fs.files
  {
    steps, s := Created(h, steps0, s0, t, ino);
    assert [] + [0] == [0];
    steps, s := Extend(h, steps, s, WriteChunk(t, [0]));
  }

  /** The download is complete and about to be committed. */
  lemma Staged(h: Hash, steps0: seq<Step>, s0: State, t: TaskId, ino: Inode) returns (steps: seq<Step>, s: State)
    requires Reached(h, steps0, s0) && t !in s0.tasks && ino !in s0.fs.inodes
    requires StagePath(NextId(s0, t)) !in s0.fs.files
    ensures Reached(h, steps, s) && s.fs.inodes.Keys == s0.fs.inodes.Keys + {ino}
    ensures With(s0, s, t, Committing(NextId(s0, t), ino, h([0]), JOB), StagePath(NextId(s0, t)))
    ensures StagePath(NextId(s0, t)) in s.fs.files
  {
    steps, s := Written(h, steps0, s0, t, ino);
    steps, s := Extend(h, steps, s, Finish(t));
  }
}
