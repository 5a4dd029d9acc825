/** Content addressing over all runs: whatever the interleaving, every file at a location of
    digest `d` holds bytes that hash to `d`, and every descriptor handed out holds what its
    reply names. The copy fallback of a commit is the one step that can break it. */
module StoreSafety {
  import opened Bytes
  import opened Filesystem
  import opened StageNames
  import opened StoreMachine

  ghost predicate Backed(fs: Fs)
  {
    forall p | p in fs.files :: fs.files[p] in fs.inodes
  }

  /** Content addressing. */
  ghost predicate Addressed(h: Hash, fs: Fs)
  {
    forall p | p in fs.files && !p.Stage? :: fs.files[p] in fs.inodes && h(fs.inodes[fs.files[p]]) == p.digest
  }

  /** A staged inode has no second name. */
  ghost predicate StagePrivate(fs: Fs)
  {
    forall p, q | p in fs.files && q in fs.files :: p.Stage? && fs.files[p] == fs.files[q] ==> p == q
  }

  ghost predicate TreeOk(h: Hash, fs: Fs)
  {
    Backed(fs) && Addressed(h, fs) && StagePrivate(fs)
  }

  ghost predicate Owns(fs: Fs, id: StageId, ino: Inode)
  {
    StagePath(id) in fs.files && fs.files[StagePath(id)] == ino && ino in fs.inodes
  }

  /** No staging name leads to the inode, so no writer can change it. */
  ghost predicate Frozen(fs: Fs, ino: Inode)
  {
    ino in fs.inodes && forall p | p in fs.files && p.Stage? :: fs.files[p] != ino
  }

  ghost predicate IsLocation(p: Path, d: Digest)
  {
    !p.Stage? && p.digest == d
  }

  /** Some content of digest `d` has this size. */
  ghost predicate SizeOf(h: Hash, d: Digest, size: nat)
  {
    exists b: seq<byte> :: h(b) == d && |b| == size
  }

  ghost predicate TaskOk(h: Hash, fs: Fs, task: Task)
  {
    match task
    case Writing(id, _, ino, hashed) => Owns(fs, id, ino) && fs.inodes[ino] == hashed
    case Probing(id, ino, d, _) => Owns(fs, id, ino) && h(fs.inodes[ino]) == d
    case Moving(id, ino, d, target) => Owns(fs, id, ino) && h(fs.inodes[ino]) == d && IsLocation(target, d)
    case Committing(id, ino, d, _) => Owns(fs, id, ino) && h(fs.inodes[ino]) == d
    case Sizing(d, p) => IsLocation(p, d)
    case OpenProbing(d, size, _) => SizeOf(h, d, size)
    case Opening(d, size, p) => SizeOf(h, d, size) && IsLocation(p, d)
    case Copying(d, size, ino, copied) =>
      SizeOf(h, d, size) && Frozen(fs, ino) && h(fs.inodes[ino]) == d && copied <= fs.inodes[ino]
    case OpeningDest(d, _, source) => Frozen(fs, source) && h(fs.inodes[source]) == d
    case Overwriting(_, _, _, _) => false
    case _ => true
  }

  /** The task holds a staging name. */
  predicate Staging(task: Task)
  {
    task.Named? || task.Writing? || task.Probing? || task.Moving? || task.Committing?
  }

  ghost predicate TasksOk(h: Hash, s: State)
  {
    forall t | t in s.tasks :: TaskOk(h, s.fs, s.tasks[t])
  }

  /** Live staging tasks have different keys, all below their process's counter. */
  ghost predicate KeysApart(s: State)
  {
    && (forall t | t in s.tasks && Staging(s.tasks[t]) ::
          && t in s.owner && s.owner[t] == s.tasks[t].id.pid
          && s.tasks[t].id.counter < Counter(s, s.tasks[t].id.Import?, s.tasks[t].id.pid))
    && (forall t, u | t in s.tasks && u in s.tasks && Staging(s.tasks[t]) && Staging(s.tasks[u]) ::
          Key(s.tasks[t].id) == Key(s.tasks[u].id) ==> t == u)
  }

  ghost predicate RepliesOk(h: Hash, s: State)
  {
    forall r | r in s.sent :: h(r.sealed) == r.digest && SizeOf(h, r.digest, r.size)
  }

  ghost predicate Inv(h: Hash, s: State)
  {
    TreeOk(h, s.fs) && TasksOk(h, s) && KeysApart(s) && RepliesOk(h, s)
  }

  // ----- Frame: what a step must leave alone for the other tasks

  /** The change of tree keeps everything task `task` relies on. */
  ghost predicate Untouched(fs: Fs, fs': Fs, task: Task)
  {
    && (task.Writing? || task.Probing? || task.Moving? || task.Committing? || task.Copying? ==>
          task.ino in fs.inodes && task.ino in fs'.inodes && fs'.inodes[task.ino] == fs.inodes[task.ino])
    && (Staging(task) && StagePath(task.id) in fs.files ==>
          StagePath(task.id) in fs'.files && fs'.files[StagePath(task.id)] == fs.files[StagePath(task.id)])
    && (task.Copying? ==> Frozen(fs', task.ino))
    && (task.OpeningDest? ==>
          task.source in fs.inodes && Frozen(fs', task.source) && fs'.inodes[task.source] == fs.inodes[task.source])
  }

  lemma OthersOk(h: Hash, s: State, s': State, t: TaskId)
    requires TasksOk(h, s)
    requires forall u | u in s'.tasks && u != t ::
               u in s.tasks && s'.tasks[u] == s.tasks[u] && Untouched(s.fs, s'.fs, s.tasks[u])
    requires t in s'.tasks ==> TaskOk(h, s'.fs, s'.tasks[t])
    ensures TasksOk(h, s')
  {
    forall u | u in s'.tasks ensures TaskOk(h, s'.fs, s'.tasks[u]) {
      if u != t {
        assert TaskOk(h, s.fs, s.tasks[u]);
      }
    }
  }

  /** Different live tasks stage under different names. */
  lemma OtherStage(s: State, t: TaskId, u: TaskId)
    requires KeysApart(s) && t in s.tasks && u in s.tasks && t != u
    requires Staging(s.tasks[t]) && Staging(s.tasks[u])
    ensures StagePath(s.tasks[t].id) != StagePath(s.tasks[u].id)
  {
    if StagePath(s.tasks[t].id) == StagePath(s.tasks[u].id) {
      NamesApart(s.tasks[t].id, s.tasks[u].id);
    }
  }

  /** Keys stay apart when a task changes state, keeping its staging id if it still has one. */
  lemma KeysKept(s: State, s': State, t: TaskId)
    requires KeysApart(s) && t in s.tasks && s'.owner == s.owner && s'.counters == s.counters
    requires forall u | u in s'.tasks && u != t :: u in s.tasks && s'.tasks[u] == s.tasks[u]
    requires t in s'.tasks && Staging(s'.tasks[t]) ==> Staging(s.tasks[t]) && s'.tasks[t].id == s.tasks[t].id
    ensures KeysApart(s')
  {
    forall u | u in s'.tasks && Staging(s'.tasks[u])
      ensures u in s'.owner && s'.owner[u] == s'.tasks[u].id.pid
      ensures s'.tasks[u].id.counter < Counter(s', s'.tasks[u].id.Import?, s'.tasks[u].id.pid)
    {
      assert Staging(s.tasks[u]) && s.tasks[u].id == s'.tasks[u].id;
    }
  }

  // ----- Tree changes

  /** One task changes the tree and its own state; the others keep what they rely on. */
  lemma ChangeKeeps(h: Hash, s: State, t: TaskId, fs: Fs, task: Task)
    requires Inv(h, s) && t in s.tasks && TreeOk(h, fs) && TaskOk(h, fs, task)
    requires Staging(task) ==> Staging(s.tasks[t]) && task.id == s.tasks[t].id
    requires forall u | u in s.tasks && u != t :: Untouched(s.fs, fs, s.tasks[u])
    ensures Inv(h, Goto(s.(fs := fs), t, task)) && Inv(h, End(s.(fs := fs), t))
  {
    var s1, s2 := Goto(s.(fs := fs), t, task), End(s.(fs := fs), t);
    OthersOk(h, s, s1, t);
    OthersOk(h, s, s2, t);
    KeysKept(s, s1, t);
    KeysKept(s, s2, t);
  }

  /** What the operations of task `t` on its own staging name, or on locations, cannot reach. */
  lemma OthersUntouched(h: Hash, s: State, t: TaskId, fs: Fs)
    requires Inv(h, s) && t in s.tasks
    requires forall p | p in s.fs.files && p.Stage? && !(Staging(s.tasks[t]) && p == StagePath(s.tasks[t].id)) ::
      p in fs.files && fs.files[p] == s.fs.files[p]
    requires forall p | p in fs.files && p.Stage? && !(Staging(s.tasks[t]) && p == StagePath(s.tasks[t].id)) ::
      p in s.fs.files && fs.files[p] == s.fs.files[p]
    requires fs.inodes == s.fs.inodes
    requires Staging(s.tasks[t]) && StagePath(s.tasks[t].id) in fs.files ==>
      && StagePath(s.tasks[t].id) in s.fs.files
      && fs.files[StagePath(s.tasks[t].id)] == s.fs.files[StagePath(s.tasks[t].id)]
    ensures forall u | u in s.tasks && u != t :: Untouched(s.fs, fs, s.tasks[u])
  {
    forall u | u in s.tasks && u != t ensures Untouched(s.fs, fs, s.tasks[u]) {
      assert TaskOk(h, s.fs, s.tasks[u]);
      if Staging(s.tasks[u]) && Staging(s.tasks[t]) {
        OtherStage(s, t, u);
      }
    }
  }

  lemma UnlinkKeeps(h: Hash, s: State, t: TaskId, p: Path, task: Task)
    requires Inv(h, s) && t in s.tasks
    requires p.Stage? ==> Staging(s.tasks[t]) && p == StagePath(s.tasks[t].id)
    requires !Staging(task) && TaskOk(h, Unlink(s.fs, p), task)
    ensures Inv(h, Goto(s.(fs := Unlink(s.fs, p)), t, task))
    ensures Inv(h, End(s.(fs := Unlink(s.fs, p)), t))
  {
    OthersUntouched(h, s, t, Unlink(s.fs, p));
    ChangeKeeps(h, s, t, Unlink(s.fs, p), task);
  }

  lemma RenameTree(h: Hash, fs: Fs, p: Path, target: Path)
    requires TreeOk(h, fs) && p.Stage? && p in fs.files && IsLocation(target, h(fs.inodes[fs.files[p]]))
    ensures TreeOk(h, Rename(fs, p, target))
    ensures Rename(fs, p, target) == fs.(files := (fs.files - {p})[target := fs.files[p]])
  {
  }

  lemma RenameKeeps(h: Hash, s: State, t: TaskId, target: Path, task: Task)
    requires Inv(h, s) && t in s.tasks && (s.tasks[t].Moving? || s.tasks[t].Committing?)
    requires IsLocation(target, s.tasks[t].digest) && (task.Unlinking? || task.Pruning?)
    ensures var fs := Rename(s.fs, StagePath(s.tasks[t].id), target);
            Inv(h, Goto(s.(fs := fs), t, task)) && Inv(h, End(s.(fs := fs), t))
  {
    var p := StagePath(s.tasks[t].id);
    assert TaskOk(h, s.fs, s.tasks[t]);
    RenameTree(h, s.fs, p, target);
    OthersUntouched(h, s, t, Rename(s.fs, p, target));
    ChangeKeeps(h, s, t, Rename(s.fs, p, target), task);
  }

  lemma LinkKeeps(h: Hash, s: State, t: TaskId, from: Path, to: Path, task: Task)
    requires Inv(h, s) && t in s.tasks && from in s.fs.files && to !in s.fs.files
    requires !from.Stage? && !to.Stage? && from.digest == to.digest && task.Tagging?
    ensures Inv(h, Goto(s.(fs := Link(s.fs, from, to)), t, task))
  {
    OthersUntouched(h, s, t, Link(s.fs, from, to));
    ChangeKeeps(h, s, t, Link(s.fs, from, to), task);
  }

  /** A step that only changes the task's own local state. */
  lemma LocalKeeps(h: Hash, s: State, t: TaskId, task: Task)
    requires Inv(h, s) && t in s.tasks && TaskOk(h, s.fs, task)
    requires Staging(task) ==> Staging(s.tasks[t]) && task.id == s.tasks[t].id
    ensures Inv(h, Goto(s, t, task)) && Inv(h, End(s, t))
  {
    OthersUntouched(h, s, t, s.fs);
    ChangeKeeps(h, s, t, s.fs, task);
    assert s.(fs := s.fs) == s;
  }

  lemma CreateTree(h: Hash, fs: Fs, p: Path, unused: Inode)
    requires TreeOk(h, fs) && p.Stage? && unused !in fs.inodes
    ensures TreeOk(h, Create(fs, p, unused))
  {
  }

  lemma CreateUntouched(h: Hash, s: State, t: TaskId, unused: Inode, u: TaskId)
    requires Inv(h, s) && t in s.tasks && s.tasks[t].Named? && unused !in s.fs.inodes && u in s.tasks && u != t
    ensures Untouched(s.fs, Create(s.fs, StagePath(s.tasks[t].id), unused), s.tasks[u])
  {
    assert TaskOk(h, s.fs, s.tasks[u]);
    if Staging(s.tasks[u]) {
      OtherStage(s, t, u);
    }
  }

  lemma CreateKeeps(h: Hash, s: State, t: TaskId, unused: Inode)
    requires Inv(h, s) && t in s.tasks && s.tasks[t].Named? && unused !in s.fs.inodes
    ensures Inv(h, Next(h, s, CreateStage(t, unused)).value)
  {
    var p := StagePath(s.tasks[t].id);
    var fs := Create(s.fs, p, unused);
    CreateTree(h, s.fs, p, unused);
    forall u | u in s.tasks && u != t ensures Untouched(s.fs, fs, s.tasks[u]) {
      CreateUntouched(h, s, t, unused, u);
    }
    ChangeKeeps(h, s, t, fs, Writing(s.tasks[t].id, s.tasks[t].job, fs.files[p], []));
  }

  lemma AppendTree(h: Hash, fs: Fs, p: Path, chunk: seq<byte>)
    requires TreeOk(h, fs) && p.Stage? && p in fs.files
    ensures TreeOk(h, Append(fs, fs.files[p], chunk))
  {
  }

  lemma WriteUntouched(h: Hash, s: State, t: TaskId, chunk: seq<byte>, u: TaskId)
    requires Inv(h, s) && t in s.tasks && s.tasks[t].Writing? && u in s.tasks && u != t
    ensures s.tasks[t].ino in s.fs.inodes && Untouched(s.fs, Append(s.fs, s.tasks[t].ino, chunk), s.tasks[u])
  {
    assert TaskOk(h, s.fs, s.tasks[t]) && TaskOk(h, s.fs, s.tasks[u]);
    if Staging(s.tasks[u]) {
      OtherStage(s, t, u);
    }
  }

  lemma WriteKeeps(h: Hash, s: State, t: TaskId, chunk: seq<byte>)
    requires Inv(h, s) && t in s.tasks && s.tasks[t].Writing?
    ensures s.tasks[t].ino in s.fs.inodes && Inv(h, Next(h, s, WriteChunk(t, chunk)).value)
  {
    var task := s.tasks[t];
    assert TaskOk(h, s.fs, task);
    AppendTree(h, s.fs, StagePath(task.id), chunk);
    var fs := Append(s.fs, task.ino, chunk);
    forall u | u in s.tasks && u != t ensures Untouched(s.fs, fs, s.tasks[u]) {
      WriteUntouched(h, s, t, chunk, u);
    }
    ChangeKeeps(h, s, t, fs, task.(hashed := task.hashed + chunk));
  }

  // ----- Every step

  lemma FoundIsLocation(fs: Fs, d: Digest, k: nat)
    ensures Found(fs, d, k).Some? ==> IsLocation(Found(fs, d, k).value, d)
  {
  }

  lemma ProbingKeeps(h: Hash, s: State, t: TaskId)
    requires Inv(h, s) && t in s.tasks && s.tasks[t].Probing?
    ensures Inv(h, Advanced(s, t, s.tasks[t]).value)
  {
    var task := s.tasks[t];
    assert TaskOk(h, s.fs, task);
    FoundIsLocation(s.fs, task.digest, task.k);
    LocalKeeps(h, s, t, Advanced(s, t, task).value.tasks[t]);
  }

  lemma MovingKeeps(h: Hash, s: State, t: TaskId)
    requires Inv(h, s) && t in s.tasks && Advanced(s, t, s.tasks[t]).Some?
    requires s.tasks[t].Moving? || s.tasks[t].Committing?
    ensures Inv(h, Advanced(s, t, s.tasks[t]).value)
  {
    assert TaskOk(h, s.fs, s.tasks[t]);
    match s.tasks[t] {
      case Moving(_, _, _, target) => RenameKeeps(h, s, t, target, Pruning(Sweep([], 0, 0, 0)));
      case Committing(_, _, d, job) => RenameKeeps(h, s, t, Flat(job.format, d), Unlinking(d, job));
    }
  }

  lemma LinkingKeeps(h: Hash, s: State, t: TaskId)
    requires Inv(h, s) && t in s.tasks && s.tasks[t].Linking?
    requires Advanced(s, t, s.tasks[t]).Some?
    ensures Inv(h, Advanced(s, t, s.tasks[t]).value)
  {
    var d, job := s.tasks[t].digest, s.tasks[t].job;
    if Flat(job.format, d) in s.fs.files && Standard(d) !in s.fs.files {
      LinkKeeps(h, s, t, Flat(job.format, d), Standard(d), Tagging(d, job));
    } else {
      LocalKeeps(h, s, t, OpeningSource(d, job));
    }
  }

  lemma OpeningSourceKeeps(h: Hash, s: State, t: TaskId)
    requires Inv(h, s) && t in s.tasks && s.tasks[t].OpeningSource?
    requires Advanced(s, t, s.tasks[t]).Some?
    ensures Inv(h, Advanced(s, t, s.tasks[t]).value)
  {
    var d, job := s.tasks[t].digest, s.tasks[t].job;
    if Flat(job.format, d) in s.fs.files {
      var source := s.fs.files[Flat(job.format, d)];
      assert Frozen(s.fs, source) && h(s.fs.inodes[source]) == d;
      LocalKeeps(h, s, t, OpeningDest(d, job, source));
    } else {
      LocalKeeps(h, s, t, Tagging(d, job));
    }
  }

  lemma WriterKeeps(h: Hash, s: State, t: TaskId)
    requires Inv(h, s) && t in s.tasks && Advanced(s, t, s.tasks[t]).Some?
    requires var task := s.tasks[t];
             || task.Probing? || task.Moving? || task.Committing? || task.Unlinking? || task.Linking?
             || task.OpeningSource? || task.Tagging?
    ensures Inv(h, Advanced(s, t, s.tasks[t]).value)
  {
    var task := s.tasks[t];
    if task.Probing? {
      ProbingKeeps(h, s, t);
    } else if task.Moving? || task.Committing? {
      MovingKeeps(h, s, t);
    } else if task.Unlinking? {
      UnlinkKeeps(h, s, t, Standard(task.digest), Linking(task.digest, task.job));
    } else if task.Linking? {
      LinkingKeeps(h, s, t);
    } else if task.OpeningSource? {
      OpeningSourceKeeps(h, s, t);
    } else {
      LocalKeeps(h, s, t, task);
    }
  }

  lemma PruningKeeps(h: Hash, s: State, t: TaskId)
    requires Inv(h, s) && t in s.tasks && s.tasks[t].Pruning?
    ensures Inv(h, Advanced(s, t, s.tasks[t]).value)
  {
    var task := s.tasks[t];
    LocalKeeps(h, s, t, task);
    if task.sweep.todo != [] && task.sweep.total > task.sweep.max {
      LocalKeeps(h, s, t, Advanced(s, t, task).value.tasks[t]);
    }
  }

  lemma PruneKeeps(h: Hash, s: State, t: TaskId)
    requires Inv(h, s) && t in s.tasks
    requires s.tasks[t].Pruning? || s.tasks[t].DroppingStandard? || s.tasks[t].DroppingFlat?
    ensures Inv(h, Advanced(s, t, s.tasks[t]).value)
  {
    var task := s.tasks[t];
    if task.Pruning? {
      PruningKeeps(h, s, t);
    } else {
      var p := if task.DroppingStandard? then Standard(task.entry.digest) else FlatGguf(task.entry.digest);
      UnlinkKeeps(h, s, t, p, Advanced(s, t, task).value.tasks[t]);
    }
  }

  predicate IsHandoff(task: Task)
  {
    task.SizeProbing? || task.Sizing? || task.OpenProbing? || task.Opening?
  }

  /** Looking up and opening a blob changes no tree, and finds only addressed content. */
  lemma HandoffCall(h: Hash, s: State, task: Task)
    requires TreeOk(h, s.fs) && IsHandoff(task) && TaskOk(h, s.fs, task)
    ensures var e := Call(s, task).value;
            && e.fs == s.fs && e.tags == s.tags
            && (e.next.Some? ==> !Staging(e.next.value) && TaskOk(h, s.fs, e.next.value))
  {
    match task {
      case SizeProbing(d, k) => FoundIsLocation(s.fs, d, k);
      case OpenProbing(d, _, k) => FoundIsLocation(s.fs, d, k);
      case Sizing(d, p) =>
        if p in s.fs.files {
          assert h(s.fs.inodes[s.fs.files[p]]) == d;
        }
      case Opening(d, _, p) =>
        if p in s.fs.files {
          assert Frozen(s.fs, s.fs.files[p]);
        }
    }
  }

  lemma HandoffKeeps(h: Hash, s: State, t: TaskId)
    requires Inv(h, s) && t in s.tasks && IsHandoff(s.tasks[t])
    ensures Inv(h, Advanced(s, t, s.tasks[t]).value)
  {
    assert TaskOk(h, s.fs, s.tasks[t]);
    HandoffCall(h, s, s.tasks[t]);
    var e := Call(s, s.tasks[t]).value;
    LocalKeeps(h, s, t, if e.next.Some? then e.next.value else s.tasks[t]);
  }

  lemma AdvanceKeeps(h: Hash, s: State, t: TaskId)
    requires Inv(h, s) && t in s.tasks && Advanced(s, t, s.tasks[t]).Some?
    ensures Inv(h, Advanced(s, t, s.tasks[t]).value)
  {
    var task := s.tasks[t];
    if task.Pruning? || task.DroppingStandard? || task.DroppingFlat? {
      PruneKeeps(h, s, t);
    } else if IsHandoff(task) {
      HandoffKeeps(h, s, t);
    } else {
      WriterKeeps(h, s, t);
    }
  }

  lemma CopyGoesOn(h: Hash, s: State, t: TaskId, n: nat)
    requires Inv(h, s) && t in s.tasks && s.tasks[t].Copying? && s.tasks[t].ino in s.fs.inodes
    requires |s.tasks[t].copied| + n <= |s.fs.inodes[s.tasks[t].ino]|
    ensures var task := s.tasks[t];
            var done := |task.copied|;
            Inv(h, Goto(s, t, task.(copied := task.copied + s.fs.inodes[task.ino][done..done + n])))
  {
    var task := s.tasks[t];
    assert TaskOk(h, s.fs, task);
    var content, done := s.fs.inodes[task.ino], |task.copied|;
    assert task.copied + content[done..done + n] == content[..done + n];
    LocalKeeps(h, s, t, task.(copied := task.copied + content[done..done + n]));
  }

  lemma CopyEnds(h: Hash, s: State, t: TaskId)
    requires Inv(h, s) && t in s.tasks && s.tasks[t].Copying? && s.tasks[t].ino in s.fs.inodes
    requires |s.tasks[t].copied| >= |s.fs.inodes[s.tasks[t].ino]|
    ensures var task := s.tasks[t];
            Inv(h, End(s, t).(sent := s.sent + [Reply(task.digest, task.size, task.copied)]))
  {
    var task := s.tasks[t];
    assert TaskOk(h, s.fs, task);
    assert task.copied == s.fs.inodes[task.ino];
    LocalKeeps(h, s, t, task);
  }

  lemma CopyKeeps(h: Hash, s: State, t: TaskId, n: nat)
    requires Inv(h, s) && t in s.tasks && s.tasks[t].Copying? && Copied(s, t, s.tasks[t], n).Some?
    ensures Inv(h, Copied(s, t, s.tasks[t], n).value)
  {
    var task := s.tasks[t];
    if |task.copied| < |s.fs.inodes[task.ino]| {
      CopyGoesOn(h, s, t, n);
    } else {
      CopyEnds(h, s, t);
    }
  }

  lemma StartKeeps(h: Hash, s: State, t: TaskId, pid: Pid, task: Task)
    requires Inv(h, s) && t !in s.tasks && (task.Pruning? || task.SizeProbing?)
    ensures Inv(h, Start(s, t, pid, task))
  {
    var s' := Start(s, t, pid, task);
    forall u | u in s.tasks && u != t ensures Untouched(s.fs, s'.fs, s.tasks[u]) {
      assert TaskOk(h, s.fs, s.tasks[u]);
    }
    OthersOk(h, s, s', t);
  }

  lemma StartStagingKeeps(h: Hash, s: State, t: TaskId, pid: Pid, id: StageId, job: Job)
    requires Inv(h, s) && t !in s.tasks && id.pid == pid && id.counter == Counter(s, id.Import?, pid)
    ensures Inv(h, StartStaging(s, t, pid, id, job))
  {
    var s' := StartStaging(s, t, pid, id, job);
    forall u | u in s.tasks && u != t ensures Untouched(s.fs, s'.fs, s.tasks[u]) {
      assert TaskOk(h, s.fs, s.tasks[u]);
    }
    OthersOk(h, s, s', t);
    StartKeysApart(s, t, pid, id, job);
  }

  /** The new key is the first its counter had not given out. */
  lemma StartKeysApart(s: State, t: TaskId, pid: Pid, id: StageId, job: Job)
    requires KeysApart(s) && t !in s.tasks && id.pid == pid && id.counter == Counter(s, id.Import?, pid)
    ensures KeysApart(StartStaging(s, t, pid, id, job))
  {
    var s' := StartStaging(s, t, pid, id, job);
    forall u | u in s.tasks && Staging(s.tasks[u])
      ensures s.tasks[u].id.counter < Counter(s', s.tasks[u].id.Import?, s.tasks[u].id.pid)
      ensures Key(s.tasks[u].id) != Key(id)
    {
      assert s.tasks[u].id.counter < Counter(s, s.tasks[u].id.Import?, s.tasks[u].id.pid);
    }
  }

  /** A process dies with its tasks; its stale staging files and counters bind nobody. */
  lemma CrashKeeps(h: Hash, s: State, pid: Pid)
    requires Inv(h, s)
    ensures Inv(h, Next(h, s, Crash(pid)).value)
  {
    var s' := Next(h, s, Crash(pid)).value;
    forall t | t in s'.tasks ensures TaskOk(h, s'.fs, s'.tasks[t]) {
      assert TaskOk(h, s.fs, s.tasks[t]);
    }
    forall t | t in s'.tasks && Staging(s'.tasks[t])
      ensures t in s'.owner && s'.owner[t] == s'.tasks[t].id.pid
      ensures s'.tasks[t].id.counter < Counter(s', s'.tasks[t].id.Import?, s'.tasks[t].id.pid)
    {
      assert Staging(s.tasks[t]) && s.owner[t] != pid;
    }
  }

  lemma FinishKeeps(h: Hash, s: State, t: TaskId)
    requires Inv(h, s) && t in s.tasks && s.tasks[t].Writing?
    ensures Inv(h, Finished(h, s, t, s.tasks[t]))
  {
    var task := s.tasks[t];
    assert TaskOk(h, s.fs, task);
    if task.job.Import? && !DigestAccepted(h(task.hashed), task.job.expected) {
      UnlinkKeeps(h, s, t, StagePath(task.id), Pruning(Sweep([], 0, 0, 0)));
    } else {
      LocalKeeps(h, s, t, Finished(h, s, t, task).tasks[t]);
    }
  }

  lemma AbandonKeeps(h: Hash, s: State, t: TaskId, cleanUp: bool)
    requires Inv(h, s) && Next(h, s, Abandon(t, cleanUp)).Some?
    ensures Inv(h, Next(h, s, Abandon(t, cleanUp)).value)
  {
    assert TaskOk(h, s.fs, s.tasks[t]);
    LocalKeeps(h, s, t, s.tasks[t]);
    UnlinkKeeps(h, s, t, StagePath(s.tasks[t].id), Pruning(Sweep([], 0, 0, 0)));
  }

  /** Every step but a firing fallback keeps the invariant. */
  lemma StepKeeps(h: Hash, s: State, step: Step)
    requires Inv(h, s) && Next(h, s, step).Some? && !FallbackFires(s, step)
    ensures Inv(h, Next(h, s, step).value)
  {
    match step {
      case StartImport(t, pid, expected) =>
        StartStagingKeeps(h, s, t, pid, StageId.Import(pid, Counter(s, true, pid)), Job.Import(expected));
      case StartDownload(t, pid, format, name, tag, safeName, safeTag, nanos) =>
        StartStagingKeeps(h, s, t, pid, StageId.Download(pid, Counter(s, false, pid), safeName, safeTag, nanos),
                          Job.Download(format, name, tag));
      case CreateStage(t, unused) => CreateKeeps(h, s, t, unused);
      case WriteChunk(t, chunk) => WriteKeeps(h, s, t, chunk);
      case Finish(t) => FinishKeeps(h, s, t);
      case Abandon(t, cleanUp) => AbandonKeeps(h, s, t, cleanUp);
      case Advance(t) => AdvanceKeeps(h, s, t);
      case StartPrune(t, pid, scanned, total, max) => StartKeeps(h, s, t, pid, Pruning(Sweep(scanned, total, 0, max)));
      case StartHandoff(t, pid, d) => StartKeeps(h, s, t, pid, SizeProbing(d, 0));
      case CopyChunk(t, n) => CopyKeeps(h, s, t, n);
      case OpenDest(_, _) =>
      case Pin(_) =>
      case Unpin(_) =>
      case Crash(pid) => CrashKeeps(h, s, pid);
    }
  }

  // ----- Runs

  lemma {:induction false} RunKeeps(h: Hash, s: State, steps: seq<Step>)
    requires Inv(h, s) && Run(h, s, steps).Some? && NoFallback(h, s, steps)
    ensures Inv(h, Run(h, s, steps).value)
    decreases |steps|
  {
    if steps != [] {
      StepKeeps(h, s, steps[0]);
      RunKeeps(h, Next(h, s, steps[0]).value, steps[1..]);
    }
  }

  lemma CallKeepsBacked(s: State, task: Task)
    requires Backed(s.fs) && Call(s, task).Some?
    ensures Backed(Call(s, task).value.fs)
  {
  }

  /** Every name leads to an inode, whatever runs, the fallback included. */
  lemma StepKeepsBacked(h: Hash, s: State, step: Step)
    requires Backed(s.fs) && Next(h, s, step).Some?
    ensures Backed(Next(h, s, step).value.fs)
  {
    if step.Advance? {
      CallKeepsBacked(s, s.tasks[step.t]);
    }
  }

  lemma {:induction false} RunKeepsBacked(h: Hash, s: State, steps: seq<Step>)
    requires Backed(s.fs) && Run(h, s, steps).Some?
    ensures Backed(Run(h, s, steps).value.fs)
    decreases |steps|
  {
    if steps != [] {
      StepKeepsBacked(h, s, steps[0]);
      RunKeepsBacked(h, Next(h, s, steps[0]).value, steps[1..]);
    }
  }

  /** Content addressing: after any schedule from the empty store in which no commit falls back
      to overwriting, every file at a location of a digest holds bytes that hash to it. */
  lemma ContentAddressing(h: Hash, steps: seq<Step>)
    requires Run(h, INIT, steps).Some? && NoFallback(h, INIT, steps)
    ensures Addressed(h, Run(h, INIT, steps).value.fs)
  {
    RunKeeps(h, INIT, steps);
  }

  /** Handoff: every descriptor sent in such a schedule holds bytes that hash to the digest its
      reply names, and when the hash is injective the announced size is their length, although
      size and content were looked up separately. */
  lemma HandoffDelivers(h: Hash, steps: seq<Step>, r: Reply)
    requires Run(h, INIT, steps).Some? && NoFallback(h, INIT, steps)
    requires r in Run(h, INIT, steps).value.sent
    ensures h(r.sealed) == r.digest
    ensures (forall a, b :: h(a) == h(b) ==> a == b) ==> r.size == |r.sealed|
  {
    RunKeeps(h, INIT, steps);
    assert SizeOf(h, r.digest, r.size);
  }

  /** The fallback is exactly what breaks content addressing: from any sound state it opens the
      destination by truncating or creating it, which leaves an addressed store only if the empty
      file has that very digest. */
  lemma FallbackBreaks(h: Hash, s: State, t: TaskId, unused: Inode)
    requires Inv(h, s) && FallbackFires(s, OpenDest(t, unused)) && unused !in s.fs.inodes
    ensures Next(h, s, OpenDest(t, unused)).Some?
    ensures Addressed(h, Next(h, s, OpenDest(t, unused)).value.fs) <==> h([]) == s.tasks[t].digest
  {
    var d := s.tasks[t].digest;
    var fs, fs' := s.fs, Next(h, s, OpenDest(t, unused)).value.fs;
    assert fs'.inodes[fs'.files[Standard(d)]] == [];
    forall p | p in fs'.files && !p.Stage? && h([]) == d
      ensures fs'.files[p] in fs'.inodes && h(fs'.inodes[fs'.files[p]]) == p.digest
    {
      assert p in fs.files ==> fs.files[p] in fs.inodes && h(fs.inodes[fs.files[p]]) == p.digest;
      assert Standard(d) in fs.files ==> h(fs.inodes[fs.files[Standard(d)]]) == d;
    }
  }

  /** The destination is a name of the very inode the copy reads. */
  predicate CopiesItself(fs: Fs, task: Task)
    requires task.OpeningDest?
  {
    Standard(task.digest) in fs.files && fs.files[Standard(task.digest)] == task.source
  }

  /** Opening a path for writing from scratch and appending what an open inode then holds. */
  lemma Refilled(fs: Fs, p: Path, unused: Inode, source: Inode)
    requires Backed(fs) && source in fs.inodes && unused !in fs.inodes
    ensures var dest := if p in fs.files then fs.files[p] else unused;
            var fs1 := Create(fs, p, unused);
            && fs1.files[p] == dest && source in fs1.inodes
            && var fs2 := Append(fs1, dest, fs1.inodes[source]);
            && fs2.files == fs.files[p := dest]
            && fs2.inodes == fs.inodes[dest := if source == dest then [] else fs.inodes[source]]
  {
    var dest := if p in fs.files then fs.files[p] else unused;
    var content := if source == dest then [] else fs.inodes[source];
    assert [] + content == content;
    assert fs.inodes[dest := []][dest := content] == fs.inodes[dest := content];
  }

  /** A tree that differs from an addressed one only in what the standard file of `d` holds. */
  lemma RefillAddressed(h: Hash, fs: Fs, fs': Fs, d: Digest, dest: Inode, content: seq<byte>)
    requires Backed(fs) && Addressed(h, fs)
    requires if Standard(d) in fs.files then dest == fs.files[Standard(d)] else dest !in fs.inodes
    requires fs'.files == fs.files[Standard(d) := dest] && fs'.inodes == fs.inodes[dest := content]
    ensures Addressed(h, fs') <==> h(content) == d
  {
    assert fs'.files[Standard(d)] == dest;
    forall p | p in fs'.files && !p.Stage? && h(content) == d ensures h(fs'.inodes[fs'.files[p]]) == p.digest {
      assert p in fs.files ==> h(fs.inodes[fs.files[p]]) == p.digest;
      assert Standard(d) in fs.files ==> h(fs.inodes[dest]) == d;
    }
  }

  /** The two steps of the fallback, one right after the other. */
  lemma CopySteps(h: Hash, s: State, t: TaskId, unused: Inode)
    requires Backed(s.fs) && FallbackFires(s, OpenDest(t, unused)) && unused !in s.fs.inodes
    requires s.tasks[t].source in s.fs.inodes
    ensures Next(h, s, OpenDest(t, unused)).Some?
    ensures var s1, p, source := Next(h, s, OpenDest(t, unused)).value, Standard(s.tasks[t].digest), s.tasks[t].source;
            var fs1 := Create(s.fs, p, unused);
            && Next(h, s1, Advance(t)).Some? && p in fs1.files && fs1.files[p] in fs1.inodes && source in fs1.inodes
            && Next(h, s1, Advance(t)).value.fs == Append(fs1, fs1.files[p], fs1.inodes[source])
  {
    var s1 := DestOpened(s, t, s.tasks[t], unused);
    assert Next(h, s, OpenDest(t, unused)).value == s1;
    assert s1.tasks[t].Overwriting? && s1.fs == Create(s.fs, Standard(s.tasks[t].digest), unused);
  }

  /** Whether the copy that follows undoes the damage: with no other step in between, the store is
      addressed again exactly when the source is another inode than the truncated destination (or
      truncation could not hurt). When the two are names of one inode there is nothing left to copy. */
  lemma RefillRestoresIff(h: Hash, s: State, t: TaskId, unused: Inode)
    requires Inv(h, s) && FallbackFires(s, OpenDest(t, unused)) && unused !in s.fs.inodes
    ensures Next(h, s, OpenDest(t, unused)).Some?
    ensures var s1 := Next(h, s, OpenDest(t, unused)).value;
            && Next(h, s1, Advance(t)).Some?
            && (Addressed(h, Next(h, s1, Advance(t)).value.fs)
                <==> !CopiesItself(s.fs, s.tasks[t]) || h([]) == s.tasks[t].digest)
  {
    var task := s.tasks[t];
    var p, source := Standard(task.digest), task.source;
    assert TaskOk(h, s.fs, task);
    CopySteps(h, s, t, unused);
    Refilled(s.fs, p, unused, source);
    var dest := if p in s.fs.files then s.fs.files[p] else unused;
    var content := if source == dest then [] else s.fs.inodes[source];
    RefillAddressed(h, s.fs, Next(h, Next(h, s, OpenDest(t, unused)).value, Advance(t)).value.fs, task.digest, dest,
                    content);
  }

  /** Step by step, content addressing survives exactly the steps other than such an opening (or an
      opening for the one digest that truncation cannot hurt). */
  lemma StepExact(h: Hash, s: State, step: Step)
    requires Inv(h, s) && Next(h, s, step).Some?
    ensures Addressed(h, Next(h, s, step).value.fs) <==>
      !FallbackFires(s, step) || h([]) == s.tasks[step.t].digest
  {
    if FallbackFires(s, step) {
      FallbackBreaks(h, s, step.t, step.unused);
    } else {
      StepKeeps(h, s, step);
    }
  }
}
