/** The procedures of the step machine against their sequential forms: an import or a download whose
    steps are the only ones leaves what `CasStore.Store` leaves. */
module StoreProcedures {
  import opened Wrappers
  import opened Bytes
  import opened Digests
  import opened Filesystem
  import opened StageNames
  import opened StoreMachine
  import opened StoreSafety
  import opened StoreAlone
  import opened CasStore

  /** The state with another tree, and task `t` at `task`. */
  function Where(s: State, t: TaskId, fs: Fs, task: Task): State
  {
    s.(fs := fs, tasks := s.tasks[t := task])
  }

  /** A schedule of task `t` alone leads from `s` to such a state. */
  ghost predicate Leads(h: Hash, s: State, t: TaskId, steps: seq<Step>, fs: Fs, task: Task)
  {
    Alone(h, s, t, steps, Where(s, t, fs, task))
  }

  lemma Onto(h: Hash, s: State, t: TaskId, steps: seq<Step>, fs: Fs, task: Task, step: Step, fs': Fs, task': Task)
    returns (steps': seq<Step>)
    requires Leads(h, s, t, steps, fs, task) && Of(step, t)
    requires Next(h, Where(s, t, fs, task), step) == Some(Where(s, t, fs', task'))
    ensures Leads(h, s, t, steps', fs', task')
  {
    var end;
    steps', end := Go(h, s, t, steps, Where(s, t, fs, task), step);
  }

  lemma CallAt(h: Hash, s: State, t: TaskId, fs: Fs, task: Task, fs': Fs, task': Task)
    requires Call(Where(s, t, fs, task), task) == Some(Effect(fs', s.tags, Some(task')))
    ensures Next(h, Where(s, t, fs, task), Advance(t)) == Some(Where(s, t, fs', task'))
  {
    assert s.tasks[t := task][t := task'] == s.tasks[t := task'];
  }

  // ----- Staging

  lemma CreateAt(h: Hash, s: State, t: TaskId, id: StageId, job: Job, unused: Inode)
    requires unused !in s.fs.inodes
    ensures var ino := StageInode(s.fs, StagePath(id), unused);
            Next(h, Where(s, t, s.fs, Named(id, job)), CreateStage(t, unused))
            == Some(Where(s, t, Staged(s.fs, StagePath(id), ino, []), Writing(id, job, ino, [])))
  {
    CreateStages(s.fs, StagePath(id), unused);
    var ino := StageInode(s.fs, StagePath(id), unused);
    assert s.tasks[t := Named(id, job)][t := Writing(id, job, ino, [])] == s.tasks[t := Writing(id, job, ino, [])];
  }

  lemma WriteAt(h: Hash, s: State, t: TaskId, id: StageId, job: Job, ino: Inode, content: seq<byte>, chunk: seq<byte>)
    ensures var p, more := StagePath(id), content + chunk;
            Next(h, Where(s, t, Staged(s.fs, p, ino, content), Writing(id, job, ino, content)), WriteChunk(t, chunk))
            == Some(Where(s, t, Staged(s.fs, p, ino, more), Writing(id, job, ino, more)))
  {
    AppendStages(s.fs, StagePath(id), ino, content, chunk);
    assert s.tasks[t := Writing(id, job, ino, content)][t := Writing(id, job, ino, content + chunk)]
        == s.tasks[t := Writing(id, job, ino, content + chunk)];
  }

  lemma StreamCons(content: seq<byte>, chunks: seq<seq<byte>>)
    requires chunks != [] && chunks[0] != []
    ensures content + chunks[0] + Stream(chunks[1..]) == content + Stream(chunks)
  {
  }

  lemma {:induction false} AllWritten(h: Hash, s: State, t: TaskId, steps: seq<Step>, id: StageId, job: Job,
      ino: Inode, content: seq<byte>, chunks: seq<seq<byte>>)
    returns (steps': seq<Step>)
    requires Leads(h, s, t, steps, Staged(s.fs, StagePath(id), ino, content), Writing(id, job, ino, content))
    requires forall i | 0 <= i < |chunks| :: chunks[i] != []
    ensures var all := content + Stream(chunks);
            Leads(h, s, t, steps', Staged(s.fs, StagePath(id), ino, all), Writing(id, job, ino, all))
    decreases |chunks|
  {
    if chunks == [] {
      assert content + [] == content;
      steps' := steps;
    } else {
      var p, more := StagePath(id), content + chunks[0];
      WriteAt(h, s, t, id, job, ino, content, chunks[0]);
      steps' := Onto(h, s, t, steps, Staged(s.fs, p, ino, content), Writing(id, job, ino, content),
                     WriteChunk(t, chunks[0]), Staged(s.fs, p, ino, more), Writing(id, job, ino, more));
      steps' := AllWritten(h, s, t, steps', id, job, ino, more, chunks[1..]);
      StreamCons(content, chunks);
    }
  }

  /** From the name to the complete staged file. */
  lemma AllStaged(h: Hash, s: State, t: TaskId, id: StageId, job: Job, unused: Inode, chunks: seq<seq<byte>>)
    returns (steps: seq<Step>)
    requires s == Where(s, t, s.fs, Named(id, job)) && unused !in s.fs.inodes
    requires forall i | 0 <= i < |chunks| :: chunks[i] != []
    ensures var p, ino, content := StagePath(id), StageInode(s.fs, StagePath(id), unused), Stream(chunks);
            Leads(h, s, t, steps, Staged(s.fs, p, ino, content), Writing(id, job, ino, content))
  {
    var ino := StageInode(s.fs, StagePath(id), unused);
    CreateAt(h, s, t, id, job, unused);
    steps := Onto(h, s, t, [], s.fs, Named(id, job), CreateStage(t, unused),
                  Staged(s.fs, StagePath(id), ino, []), Writing(id, job, ino, []));
    steps := AllWritten(h, s, t, steps, id, job, ino, [], chunks);
    assert [] + Stream(chunks) == Stream(chunks);
  }

  /** The same from the start step `start` on, which leads to `s1`. */
  lemma StartStaged(h: Hash, s: State, t: TaskId, start: Step, s1: State, id: StageId, job: Job, unused: Inode,
                    chunks: seq<seq<byte>>)
    returns (steps: seq<Step>)
    requires Of(start, t) && Next(h, s, start) == Some(s1) && s1 == Where(s1, t, s.fs, Named(id, job))
    requires unused !in s.fs.inodes && forall i | 0 <= i < |chunks| :: chunks[i] != []
    ensures var p, ino, content := StagePath(id), StageInode(s.fs, StagePath(id), unused), Stream(chunks);
            Alone(h, s, t, steps, Where(s1, t, Staged(s.fs, p, ino, content), Writing(id, job, ino, content)))
  {
    OneStep(h, s, t, start);
    var ino, content := StageInode(s.fs, StagePath(id), unused), Stream(chunks);
    var more := AllStaged(h, s1, t, id, job, unused, chunks);
    steps := [start] + more;
    Chain(h, s, t, [start], s1, more,
          Where(s1, t, Staged(s.fs, StagePath(id), ino, content), Writing(id, job, ino, content)));
  }

  // ----- An import

  /** Finishing an import leads to the rename exactly when nothing was expected or the computed digest
      was, in any spelling; otherwise the staging file goes and the task with it. */
  lemma FinishIff(h: Hash, s: State, t: TaskId)
    requires t in s.tasks && s.tasks[t].Writing? && s.tasks[t].job.Import? && IsDigest(h(s.tasks[t].hashed))
    ensures var task := s.tasks[t];
            var d := h(task.hashed);
            Next(h, s, Finish(t))
            == Some(if task.job.expected.None? || Spelled(task.job.expected.value, d)
                    then s.(tasks := s.tasks[t := Probing(task.id, task.ino, d, 0)])
                    else s.(fs := s.fs.(files := s.fs.files - {StagePath(task.id)}), tasks := s.tasks - {t}))
  {
    var task := s.tasks[t];
    if task.job.expected.Some? {
      SpelledIff(task.job.expected.value, h(task.hashed));
    }
  }

  /** The path `blob_path` settles on is the one a reader finds. */
  lemma BlobPathIs(fs: Fs, d: Digest)
    ensures Present(fs, d) ==> BlobPath(fs, d) == FirstPresent(fs, d) && FirstPresent(fs, d) in fs.files
    ensures !Present(fs, d) ==> BlobPath(fs, d) == Standard(d)
  {
  }

  /** The lookup of an import's target. */
  lemma TargetFound(h: Hash, s: State, t: TaskId, id: StageId, ino: Inode, d: Digest) returns (steps: seq<Step>)
    requires s == Goto(s, t, Probing(id, ino, d, 0))
    ensures CameTo(h, s, t, steps, Moving(id, ino, d, BlobPath(s.fs, d)))
  {
    var p := BlobPath(s.fs, d);
    steps := [];
    if Standard(d) in s.fs.files {
      steps := Onward(h, s, t, steps, Probing(id, ino, d, 0), Moving(id, ino, d, p));
    } else {
      steps := Onward(h, s, t, steps, Probing(id, ino, d, 0), Probing(id, ino, d, 1));
      if FlatGguf(d) in s.fs.files {
        steps := Onward(h, s, t, steps, Probing(id, ino, d, 1), Moving(id, ino, d, p));
      } else {
        steps := Onward(h, s, t, steps, Probing(id, ino, d, 1), Probing(id, ino, d, 2));
        steps := Onward(h, s, t, steps, Probing(id, ino, d, 2), Moving(id, ino, d, p));
      }
    }
  }

  lemma RenameEnds(h: Hash, s: State, t: TaskId, id: StageId, ino: Inode, d: Digest, p: Path)
    requires StagePath(id) in s.fs.files
    ensures Next(h, Goto(s, t, Moving(id, ino, d, p)), Advance(t))
            == Some(s.(fs := Rename(s.fs, StagePath(id), p), tasks := s.tasks - {t}))
  {
    assert s.tasks[t := Moving(id, ino, d, p)] - {t} == s.tasks - {t};
  }

  /** The rest of an accepted import. */
  lemma Moved(h: Hash, s: State, t: TaskId, id: StageId, ino: Inode, d: Digest) returns (steps: seq<Step>)
    requires s == Goto(s, t, Probing(id, ino, d, 0)) && StagePath(id) in s.fs.files
    ensures Alone(h, s, t, steps, s.(fs := Rename(s.fs, StagePath(id), BlobPath(s.fs, d)), tasks := s.tasks - {t}))
  {
    var end, p := s, BlobPath(s.fs, d);
    steps := TargetFound(h, s, t, id, ino, d);
    RenameEnds(h, s, t, id, ino, d, p);
    steps, end := Go(h, s, t, steps, Goto(s, t, Moving(id, ino, d, p)), Advance(t));
  }

  lemma MovedFrom(h: Hash, s: State, t: TaskId, fs: Fs, id: StageId, ino: Inode, d: Digest)
    returns (steps: seq<Step>)
    requires StagePath(id) in fs.files
    ensures Alone(h, Where(s, t, fs, Probing(id, ino, d, 0)), t, steps,
                  s.(fs := Rename(fs, StagePath(id), BlobPath(fs, d)), tasks := s.tasks - {t}))
  {
    var s2 := Where(s, t, fs, Probing(id, ino, d, 0));
    assert s2 == Goto(s2, t, Probing(id, ino, d, 0)) && s2.tasks - {t} == s.tasks - {t};
    steps := Moved(h, s2, t, id, ino, d);
  }

  /** The tree an import leaves. */
  function Imported(h: Hash, fs: Fs, p: Path, unused: Inode, content: seq<byte>, accepted: bool): Fs
    requires p.Stage?
  {
    var staged := Staged(fs, p, StageInode(fs, p, unused), content);
    if accepted then Rename(staged, p, BlobPath(staged, h(content))) else Unlink(staged, p)
  }

  /** From the complete staged file to the end of an import. */
  lemma ImportEnds(h: Hash, s: State, t: TaskId, id: StageId, expected: Option<string>, unused: Inode,
                   content: seq<byte>)
    returns (steps: seq<Step>)
    requires IsDigest(h(content))
    ensures var p, ino := StagePath(id), StageInode(s.fs, StagePath(id), unused);
            var accepted := expected.None? || Spelled(expected.value, h(content));
            Alone(h, Where(s, t, Staged(s.fs, p, ino, content), Writing(id, Job.Import(expected), ino, content)), t,
                  steps, s.(fs := Imported(h, s.fs, p, unused, content, accepted), tasks := s.tasks - {t}))
  {
    var p, ino, d := StagePath(id), StageInode(s.fs, StagePath(id), unused), h(content);
    var staged := Staged(s.fs, p, ino, content);
    var s1 := Where(s, t, staged, Writing(id, Job.Import(expected), ino, content));
    var s2 := Next(h, s1, Finish(t)).value;
    FinishIff(h, s1, t);
    OneStep(h, s1, t, Finish(t));
    steps := [Finish(t)];
    if expected.None? || Spelled(expected.value, d) {
      assert s2 == Where(s, t, staged, Probing(id, ino, d, 0));
      var more := MovedFrom(h, s, t, staged, id, ino, d);
      Chain(h, s1, t, steps, s2, more, s.(fs := Rename(staged, p, BlobPath(staged, d)), tasks := s.tasks - {t}));
      steps := steps + more;
    } else {
      assert s2.fs == Unlink(staged, p) && s2.tasks == s.tasks - {t};
    }
  }

  /** What that tree is. */
  lemma ImportedIs(h: Hash, fs: Fs, p: Path, unused: Inode, content: seq<byte>, accepted: bool)
    requires TreeOk(h, fs) && p.Stage? && unused !in fs.inodes
    ensures var d, fs' := h(content), Imported(h, fs, p, unused, content, accepted);
            var target := if Present(fs, d) then FirstPresent(fs, d) else Standard(d);
            && p !in fs'.files
            && if accepted then Holds(fs', target, content) && SameBut(fs, fs', {p, target}) else SameBut(fs, fs', {p})
  {
    var ino := StageInode(fs, p, unused);
    StagedBlobPath(fs, p, ino, content, h(content));
    BlobPathIs(fs, h(content));
    ImportOutcome(h, fs, p, unused, content, BlobPath(fs, h(content)));
    RejectOutcome(h, fs, p, unused, content);
  }

  lemma TaskGone(tasks: map<TaskId, Task>, t: TaskId, a: Task, b: Task)
    requires t !in tasks
    ensures tasks[t := a] - {t} == tasks && tasks[t := a][t := b] - {t} == tasks
  {
  }

  /** The schedule of an import and the state it ends in. */
  lemma ImportRun(h: Hash, s: State, t: TaskId, pid: Pid, id: StageId, expected: Option<string>, start: Step,
                  chunks: seq<seq<byte>>, unused: Inode)
    returns (steps: seq<Step>, s': State)
    requires t !in s.tasks && unused !in s.fs.inodes && Of(start, t)
    requires Next(h, s, start) == Some(StartStaging(s, t, pid, id, Job.Import(expected)))
    requires IsDigest(h(Stream(chunks))) && forall i | 0 <= i < |chunks| :: chunks[i] != []
    ensures Alone(h, s, t, steps, s') && s'.tasks == s.tasks && s'.tags == s.tags && s'.sent == s.sent
    ensures var accepted := expected.None? || Spelled(expected.value, h(Stream(chunks)));
            s'.fs == Imported(h, s.fs, StagePath(id), unused, Stream(chunks), accepted)
  {
    var job, content, p := Job.Import(expected), Stream(chunks), StagePath(id);
    var ino, s1 := StageInode(s.fs, p, unused), StartStaging(s, t, pid, id, job);
    steps := StartStaged(h, s, t, start, s1, id, job, unused, chunks);
    var s2 := Where(s1, t, Staged(s.fs, p, ino, content), Writing(id, job, ino, content));
    var more := ImportEnds(h, s1, t, id, expected, unused, content);
    var accepted := expected.None? || Spelled(expected.value, h(content));
    s' := s1.(fs := Imported(h, s.fs, p, unused, content, accepted), tasks := s1.tasks - {t});
    Chain(h, s, t, steps, s2, more, s');
    TaskGone(s.tasks, t, Named(id, job), Writing(id, job, ino, content));
    steps := steps + more;
  }

  /** Left alone, an import of any stream in any reads leaves the content at the location a reader of
      its digest finds, or, when another digest was expected, nothing; and no other file changes. */
  lemma ImportAlone(h: Hash, s: State, t: TaskId, pid: Pid, expected: Option<string>, chunks: seq<seq<byte>>,
                    unused: Inode)
    returns (steps: seq<Step>, s': State)
    requires Inv(h, s) && t !in s.tasks && unused !in s.fs.inodes
    requires IsDigest(h(Stream(chunks))) && forall i | 0 <= i < |chunks| :: chunks[i] != []
    ensures Alone(h, s, t, steps, s') && s'.tasks == s.tasks && s'.tags == s.tags && s'.sent == s.sent
    ensures var content := Stream(chunks);
            var d, stage := h(content), StagePath(StageId.Import(pid, Counter(s, true, pid)));
            var target := if Present(s.fs, d) then FirstPresent(s.fs, d) else Standard(d);
            && stage !in s'.fs.files
            && if expected.None? || Spelled(expected.value, d)
               then Holds(s'.fs, target, content) && SameBut(s.fs, s'.fs, {stage, target})
               else SameBut(s.fs, s'.fs, {stage})
  {
    var id := StageId.Import(pid, Counter(s, true, pid));
    var accepted := expected.None? || Spelled(expected.value, h(Stream(chunks)));
    steps, s' := ImportRun(h, s, t, pid, id, expected, StartImport(t, pid, expected), chunks, unused);
    ImportedIs(h, s.fs, StagePath(id), unused, Stream(chunks), accepted);
  }

  // ----- A download

  lemma CommitCalls(h: Hash, s: State, t: TaskId, id: StageId, ino: Inode, job: Job, d: Digest)
    returns (steps: seq<Step>)
    requires job.Download? && s == Goto(s, t, Committing(id, ino, d, job)) && StagePath(id) in s.fs.files
    requires !(Flat(job.format, d) in s.fs.files && s.fs.files[Flat(job.format, d)] == s.fs.files[StagePath(id)])
    ensures Leads(h, s, t, steps, Committed(s.fs, StagePath(id), job.format, d), Tagging(d, job))
  {
    var p, flat := StagePath(id), Flat(job.format, d);
    var renamed := Rename(s.fs, p, flat);
    var unlinked := Unlink(renamed, Standard(d));
    var linked := Link(unlinked, flat, Standard(d));
    assert Where(s, t, s.fs, Committing(id, ino, d, job)) == s;
    CallAt(h, s, t, s.fs, Committing(id, ino, d, job), renamed, Unlinking(d, job));
    steps := Onto(h, s, t, [], s.fs, Committing(id, ino, d, job), Advance(t), renamed, Unlinking(d, job));
    CallAt(h, s, t, renamed, Unlinking(d, job), unlinked, Linking(d, job));
    steps := Onto(h, s, t, steps, renamed, Unlinking(d, job), Advance(t), unlinked, Linking(d, job));
    CallAt(h, s, t, unlinked, Linking(d, job), linked, Tagging(d, job));
    steps := Onto(h, s, t, steps, unlinked, Linking(d, job), Advance(t), linked, Tagging(d, job));
  }

  lemma FinishDownload(h: Hash, s: State, t: TaskId, id: StageId, job: Job, ino: Inode, content: seq<byte>)
    requires job.Download?
    ensures Next(h, Goto(s, t, Writing(id, job, ino, content)), Finish(t))
            == Some(Goto(s, t, Committing(id, ino, h(content), job)))
  {
    assert s.tasks[t := Writing(id, job, ino, content)][t := Committing(id, ino, h(content), job)]
        == s.tasks[t := Committing(id, ino, h(content), job)];
  }

  lemma TagEnds(h: Hash, s: State, t: TaskId, fs: Fs, d: Digest, job: Job)
    requires job.Download?
    ensures Next(h, Where(s, t, fs, Tagging(d, job)), Advance(t))
            == Some(s.(fs := fs, tasks := s.tasks - {t}, tags := s.tags[(job.name, job.tag) := d]))
  {
    assert s.tasks[t := Tagging(d, job)] - {t} == s.tasks - {t};
  }

  /** From the complete staged file to the tag. */
  lemma DownloadEnds(h: Hash, s: State, t: TaskId, id: StageId, ino: Inode, job: Job, content: seq<byte>)
    returns (steps: seq<Step>, end: State)
    requires job.Download? && s == Goto(s, t, Writing(id, job, ino, content)) && TreeOk(h, s.fs)
    requires StagePath(id) in s.fs.files
    ensures Alone(h, s, t, steps, end)
    ensures end == s.(fs := Committed(s.fs, StagePath(id), job.format, h(content)), tasks := s.tasks - {t},
                      tags := s.tags[(job.name, job.tag) := h(content)])
  {
    var d := h(content);
    var s1 := Goto(s, t, Committing(id, ino, d, job));
    FinishDownload(h, s, t, id, job, ino, content);
    OneStep(h, s, t, Finish(t));
    var more := CommitCalls(h, s1, t, id, ino, job, d);
    var fs := Committed(s.fs, StagePath(id), job.format, d);
    Chain(h, s, t, [Finish(t)], s1, more, Where(s1, t, fs, Tagging(d, job)));
    TagEnds(h, s1, t, fs, d, job);
    steps, end := Go(h, s, t, [Finish(t)] + more, Where(s1, t, fs, Tagging(d, job)), Advance(t));
    assert s1.tasks - {t} == s.tasks - {t};
  }

  /** What a download leaves: both names of its content on one inode, and no other file changed. */
  lemma CommittedIs(h: Hash, fs: Fs, p: Path, unused: Inode, content: seq<byte>, format: Format)
    requires TreeOk(h, fs) && p.Stage? && unused !in fs.inodes
    ensures var d, staged := h(content), Staged(fs, p, StageInode(fs, p, unused), content);
            var flat := if format.Gguf? then FlatGguf(d) else FlatSafetensors(d);
            var fs' := Committed(staged, p, format, d);
            && TreeOk(h, staged) && p !in fs'.files && Holds(fs', flat, content) && Holds(fs', Standard(d), content)
            && fs'.files[Standard(d)] == fs'.files[flat] && SameBut(fs, fs', {p, flat, Standard(d)})
  {
    var d, staged := h(content), Staged(fs, p, StageInode(fs, p, unused), content);
    StagingIsInvisible(h, fs, p, unused, content);
    CommitOutcome(h, staged, p, format, content);
    SameTwice(fs, staged, Committed(staged, p, format, d), {p}, {p, Flat(format, d), Standard(d)});
  }

  lemma SameTwice(a: Fs, b: Fs, c: Fs, changed: set<Path>, more: set<Path>)
    requires SameBut(a, b, changed) && SameBut(b, c, more) && changed <= more
    ensures SameBut(a, c, more)
  {
    forall q: Path | q !in more ensures SameAt(a, c, q) {
      assert SameAt(a, b, q) && SameAt(b, c, q);
    }
  }

  /** The state of a started staging task with its stream complete. */
  function AllIn(s1: State, t: TaskId, id: StageId, job: Job, unused: Inode, content: seq<byte>): State
  {
    var ino := StageInode(s1.fs, StagePath(id), unused);
    Where(s1, t, Staged(s1.fs, StagePath(id), ino, content), Writing(id, job, ino, content))
  }

  lemma AllInOk(h: Hash, s1: State, t: TaskId, id: StageId, job: Job, unused: Inode, content: seq<byte>)
    requires TreeOk(h, s1.fs) && unused !in s1.fs.inodes
    ensures var s2, ino := AllIn(s1, t, id, job, unused, content), StageInode(s1.fs, StagePath(id), unused);
            s2 == Goto(s2, t, Writing(id, job, ino, content)) && TreeOk(h, s2.fs) && StagePath(id) in s2.fs.files
  {
    StagingIsInvisible(h, s1.fs, StagePath(id), unused, content);
  }

  /** The schedule of a download and the state it ends in. */
  lemma DownloadRun(h: Hash, s: State, t: TaskId, pid: Pid, id: StageId, job: Job, start: Step,
                    chunks: seq<seq<byte>>, unused: Inode)
    returns (steps: seq<Step>, s': State)
    requires TreeOk(h, s.fs) && t !in s.tasks && unused !in s.fs.inodes && job.Download? && Of(start, t)
    requires Next(h, s, start) == Some(StartStaging(s, t, pid, id, job))
    requires forall i | 0 <= i < |chunks| :: chunks[i] != []
    ensures Alone(h, s, t, steps, s') && s'.tasks == s.tasks && s'.sent == s.sent
    ensures var content := Stream(chunks);
            var staged := Staged(s.fs, StagePath(id), StageInode(s.fs, StagePath(id), unused), content);
            && s'.fs == Committed(staged, StagePath(id), job.format, h(content))
            && s'.tags == s.tags[(job.name, job.tag) := h(content)]
  {
    var content, p := Stream(chunks), StagePath(id);
    var ino, s1 := StageInode(s.fs, p, unused), StartStaging(s, t, pid, id, job);
    steps := StartStaged(h, s, t, start, s1, id, job, unused, chunks);
    var s2 := AllIn(s1, t, id, job, unused, content);
    AllInOk(h, s1, t, id, job, unused, content);
    var more;
    more, s' := DownloadEnds(h, s2, t, id, ino, job, content);
    Chain(h, s, t, steps, s2, more, s');
    TaskGone(s.tasks, t, Named(id, job), Writing(id, job, ino, content));
    steps := steps + more;
  }

  /** Left alone, a download of any stream in any reads ends with its content at the flat location of
      its format and at the standard one, as two names of one inode, with its tag naming the digest,
      and with no other file and no other tag changed. */
  lemma DownloadAlone(h: Hash, s: State, t: TaskId, pid: Pid, format: Format, name: string, tag: string,
                      safeName: string, safeTag: string, nanos: nat, chunks: seq<seq<byte>>, unused: Inode)
    returns (steps: seq<Step>, s': State)
    requires Inv(h, s) && t !in s.tasks && unused !in s.fs.inodes
    requires forall i | 0 <= i < |chunks| :: chunks[i] != []
    ensures Alone(h, s, t, steps, s') && s'.tasks == s.tasks && s'.sent == s.sent
    ensures var content := Stream(chunks);
            var d := h(content);
            var stage := StagePath(StageId.Download(pid, Counter(s, false, pid), safeName, safeTag, nanos));
            var flat := if format.Gguf? then FlatGguf(d) else FlatSafetensors(d);
            && stage !in s'.fs.files && Holds(s'.fs, flat, content) && Holds(s'.fs, Standard(d), content)
            && s'.fs.files[Standard(d)] == s'.fs.files[flat] && SameBut(s.fs, s'.fs, {stage, flat, Standard(d)})
            && s'.tags == s.tags[(name, tag) := d]
  {
    var id := StageId.Download(pid, Counter(s, false, pid), safeName, safeTag, nanos);
    var start := StartDownload(t, pid, format, name, tag, safeName, safeTag, nanos);
    steps, s' := DownloadRun(h, s, t, pid, id, Job.Download(format, name, tag), start, chunks, unused);
    CommittedIs(h, s.fs, StagePath(id), unused, Stream(chunks), format);
  }
}
