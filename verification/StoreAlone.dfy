/** What each kind of task does when its steps are the only ones: the handoff replies, the import and
    the download leave what the sequential procedures leave, the prune removes what the loop removes. */
module StoreAlone {
  import opened Wrappers
  import opened Strings
  import opened Digests
  import opened Filesystem
  import opened StageNames
  import opened StoreMachine
  import opened StoreSafety

  /** The step is one of task `t`. */
  predicate Of(step: Step, t: TaskId)
  {
    !step.Pin? && !step.Unpin? && !step.Crash? && step.t == t
  }

  /** A schedule of task `t` alone leads from `s` to `end`. */
  ghost predicate Alone(h: Hash, s: State, t: TaskId, steps: seq<Step>, end: State)
  {
    Run(h, s, steps) == Some(end) && forall i | 0 <= i < |steps| :: Of(steps[i], t)
  }

  lemma {:induction false} RunOn(h: Hash, s: State, a: seq<Step>, b: seq<Step>)
    requires Run(h, s, a).Some?
    ensures Run(h, s, a + b) == Run(h, Run(h, s, a).value, b)
    decreases |a|
  {
    if a == [] {
      assert a + b == b;
    } else {
      RunOn(h, Next(h, s, a[0]).value, a[1..], b);
      assert (a + b)[1..] == a[1..] + b;
    }
  }

  lemma OneStep(h: Hash, s: State, t: TaskId, step: Step)
    requires Of(step, t) && Next(h, s, step).Some?
    ensures Alone(h, s, t, [step], Next(h, s, step).value)
  {
    assert [step][1..] == [];
    assert Run(h, Next(h, s, step).value, []) == Some(Next(h, s, step).value);
  }

  lemma Chain(h: Hash, s: State, t: TaskId, a: seq<Step>, mid: State, b: seq<Step>, end: State)
    requires Alone(h, s, t, a, mid) && Alone(h, mid, t, b, end)
    ensures Alone(h, s, t, a + b, end)
  {
    RunOn(h, s, a, b);
  }

  /** One more step. */
  lemma Go(h: Hash, s: State, t: TaskId, steps: seq<Step>, mid: State, step: Step)
    returns (steps': seq<Step>, end: State)
    requires Alone(h, s, t, steps, mid) && Of(step, t) && Next(h, mid, step).Some?
    ensures Alone(h, s, t, steps', end) && end == Next(h, mid, step).value
  {
    end := Next(h, mid, step).value;
    OneStep(h, mid, t, step);
    Chain(h, s, t, steps, mid, [step], end);
    steps' := steps + [step];
  }

  // ----- Handoffs

  /** Task `t` has come to `task`, and nothing else has changed. */
  ghost predicate CameTo(h: Hash, s: State, t: TaskId, steps: seq<Step>, task: Task)
  {
    Alone(h, s, t, steps, Goto(s, t, task))
  }

  /** The next call changes nothing but where the task is. */
  lemma Onward(h: Hash, s: State, t: TaskId, steps: seq<Step>, task: Task, next: Task) returns (steps': seq<Step>)
    requires CameTo(h, s, t, steps, task)
    requires Call(Goto(s, t, task), task) == Then(Goto(s, t, task), next)
    ensures CameTo(h, s, t, steps', next)
  {
    var mid, end := Goto(s, t, task), Goto(s, t, next);
    assert Applied(mid, t, Effect(mid.fs, mid.tags, Some(next))) == end;
    steps', end := Go(h, s, t, steps, mid, Advance(t));
  }

  /** The location a reader finds: the standard one if it is there, else the flat GGUF one if that
      is there, else the flat safetensors one. */
  function FirstPresent(fs: Fs, d: Digest): Path
  {
    if Standard(d) in fs.files then Standard(d)
    else if FlatGguf(d) in fs.files then FlatGguf(d)
    else FlatSafetensors(d)
  }

  lemma SizeLookup(h: Hash, s: State, t: TaskId, steps: seq<Step>, d: Digest) returns (steps': seq<Step>)
    requires CameTo(h, s, t, steps, SizeProbing(d, 0)) && Present(s.fs, d)
    ensures CameTo(h, s, t, steps', Sizing(d, FirstPresent(s.fs, d)))
  {
    var p := FirstPresent(s.fs, d);
    steps' := steps;
    if p == Standard(d) {
      steps' := Onward(h, s, t, steps', SizeProbing(d, 0), Sizing(d, p));
    } else {
      steps' := Onward(h, s, t, steps', SizeProbing(d, 0), SizeProbing(d, 1));
      if p == FlatGguf(d) {
        steps' := Onward(h, s, t, steps', SizeProbing(d, 1), Sizing(d, p));
      } else {
        steps' := Onward(h, s, t, steps', SizeProbing(d, 1), SizeProbing(d, 2));
        steps' := Onward(h, s, t, steps', SizeProbing(d, 2), Sizing(d, p));
      }
    }
  }

  lemma OpenLookup(h: Hash, s: State, t: TaskId, steps: seq<Step>, d: Digest, size: nat) returns (steps': seq<Step>)
    requires CameTo(h, s, t, steps, OpenProbing(d, size, 0)) && Present(s.fs, d)
    ensures CameTo(h, s, t, steps', Opening(d, size, FirstPresent(s.fs, d)))
  {
    var p := FirstPresent(s.fs, d);
    steps' := steps;
    if p == Standard(d) {
      steps' := Onward(h, s, t, steps', OpenProbing(d, size, 0), Opening(d, size, p));
    } else {
      steps' := Onward(h, s, t, steps', OpenProbing(d, size, 0), OpenProbing(d, size, 1));
      if p == FlatGguf(d) {
        steps' := Onward(h, s, t, steps', OpenProbing(d, size, 1), Opening(d, size, p));
      } else {
        steps' := Onward(h, s, t, steps', OpenProbing(d, size, 1), OpenProbing(d, size, 2));
        steps' := Onward(h, s, t, steps', OpenProbing(d, size, 2), Opening(d, size, p));
      }
    }
  }

  lemma CopyWhole(h: Hash, s: State, t: TaskId, d: Digest, size: nat, ino: Inode)
    requires ino in s.fs.inodes && s.fs.inodes[ino] != []
    ensures var content := s.fs.inodes[ino];
            Next(h, Goto(s, t, Copying(d, size, ino, [])), CopyChunk(t, |content|))
            == Some(Goto(s, t, Copying(d, size, ino, content)))
  {
    var content := s.fs.inodes[ino];
    assert [] + content[0..|content|] == content;
    assert s.tasks[t := Copying(d, size, ino, [])][t := Copying(d, size, ino, content)]
        == s.tasks[t := Copying(d, size, ino, content)];
  }

  lemma CopyDone(h: Hash, s: State, t: TaskId, d: Digest, size: nat, ino: Inode)
    requires ino in s.fs.inodes
    ensures var content := s.fs.inodes[ino];
            Next(h, Goto(s, t, Copying(d, size, ino, content)), CopyChunk(t, 0))
            == Some(s.(tasks := s.tasks - {t}, sent := s.sent + [Reply(d, size, content)]))
  {
    assert s.tasks[t := Copying(d, size, ino, s.fs.inodes[ino])] - {t} == s.tasks - {t};
  }

  /** From the opened file to the reply. */
  lemma CopyReplies(h: Hash, s: State, t: TaskId, steps: seq<Step>, d: Digest, size: nat, ino: Inode)
    returns (steps': seq<Step>)
    requires CameTo(h, s, t, steps, Copying(d, size, ino, [])) && ino in s.fs.inodes
    ensures Alone(h, s, t, steps',
                  s.(tasks := s.tasks - {t}, sent := s.sent + [Reply(d, size, s.fs.inodes[ino])]))
  {
    var content := s.fs.inodes[ino];
    var end;
    steps' := steps;
    if content != [] {
      CopyWhole(h, s, t, d, size, ino);
      steps', end := Go(h, s, t, steps', Goto(s, t, Copying(d, size, ino, [])), CopyChunk(t, |content|));
    }
    CopyDone(h, s, t, d, size, ino);
    steps', end := Go(h, s, t, steps', Goto(s, t, Copying(d, size, ino, content)), CopyChunk(t, 0));
  }

  lemma CameToIt(h: Hash, s: State, t: TaskId)
    requires t in s.tasks
    ensures CameTo(h, s, t, [], s.tasks[t])
  {
    assert s.tasks[t := s.tasks[t]] == s.tasks;
  }

  lemma SizeRead(h: Hash, s: State, t: TaskId, steps: seq<Step>, d: Digest, p: Path) returns (steps': seq<Step>)
    requires Backed(s.fs) && p in s.fs.files && CameTo(h, s, t, steps, Sizing(d, p))
    ensures CameTo(h, s, t, steps', OpenProbing(d, |s.fs.inodes[s.fs.files[p]]|, 0))
  {
    steps' := Onward(h, s, t, steps, Sizing(d, p), OpenProbing(d, |s.fs.inodes[s.fs.files[p]]|, 0));
  }

  lemma Opened(h: Hash, s: State, t: TaskId, steps: seq<Step>, d: Digest, size: nat, p: Path)
    returns (steps': seq<Step>)
    requires p in s.fs.files && CameTo(h, s, t, steps, Opening(d, size, p))
    ensures CameTo(h, s, t, steps', Copying(d, size, s.fs.files[p], []))
  {
    steps' := Onward(h, s, t, steps, Opening(d, size, p), Copying(d, size, s.fs.files[p], []));
  }

  /** Left alone, a handoff of a digest that is present ends with exactly one reply: the digest, the
      length of the first location present, and its content. */
  lemma HandoffReplies(h: Hash, s: State, t: TaskId, d: Digest) returns (steps: seq<Step>)
    requires Backed(s.fs) && t in s.tasks && s.tasks[t] == SizeProbing(d, 0) && Present(s.fs, d)
    ensures FirstPresent(s.fs, d) in s.fs.files
    ensures var b := s.fs.inodes[s.fs.files[FirstPresent(s.fs, d)]];
            Alone(h, s, t, steps, s.(tasks := s.tasks - {t}, sent := s.sent + [Reply(d, |b|, b)]))
  {
    var p := FirstPresent(s.fs, d);
    var ino := s.fs.files[p];
    var size := |s.fs.inodes[ino]|;
    CameToIt(h, s, t);
    steps := SizeLookup(h, s, t, [], d);
    steps := SizeRead(h, s, t, steps, d, p);
    steps := OpenLookup(h, s, t, steps, d, size);
    steps := Opened(h, s, t, steps, d, size, p);
    steps := CopyReplies(h, s, t, steps, d, size, ino);
  }

  /** The same from the request on. */
  lemma RequestReplies(h: Hash, s: State, t: TaskId, pid: Pid, d: Digest) returns (steps: seq<Step>)
    requires Backed(s.fs) && t !in s.tasks && Present(s.fs, d)
    ensures steps != [] && steps[0] == StartHandoff(t, pid, d) && FirstPresent(s.fs, d) in s.fs.files
    ensures var b := s.fs.inodes[s.fs.files[FirstPresent(s.fs, d)]];
            Alone(h, s, t, steps, s.(owner := s.owner[t := pid], sent := s.sent + [Reply(d, |b|, b)]))
  {
    var s1 := Next(h, s, StartHandoff(t, pid, d)).value;
    OneStep(h, s, t, StartHandoff(t, pid, d));
    var more := HandoffReplies(h, s1, t, d);
    var b := s.fs.inodes[s.fs.files[FirstPresent(s.fs, d)]];
    var end := s1.(tasks := s1.tasks - {t}, sent := s1.sent + [Reply(d, |b|, b)]);
    Chain(h, s, t, [StartHandoff(t, pid, d)], s1, more, end);
    assert s1.tasks - {t} == s.tasks;
    steps := [StartHandoff(t, pid, d)] + more;
  }

  /** Left alone, a handoff of a digest at none of its three locations ends without a reply. */
  lemma HandoffRefuses(h: Hash, s: State, t: TaskId, d: Digest) returns (steps: seq<Step>)
    requires t in s.tasks && s.tasks[t] == SizeProbing(d, 0) && !Present(s.fs, d)
    ensures Alone(h, s, t, steps, s.(tasks := s.tasks - {t}))
  {
    CameToIt(h, s, t);
    steps := Onward(h, s, t, [], SizeProbing(d, 0), SizeProbing(d, 1));
    steps := Onward(h, s, t, steps, SizeProbing(d, 1), SizeProbing(d, 2));
    steps := Onward(h, s, t, steps, SizeProbing(d, 2), Sizing(d, Standard(d)));
    steps := SizeFails(h, s, t, steps, d, Standard(d));
  }

  lemma SizeFails(h: Hash, s: State, t: TaskId, steps: seq<Step>, d: Digest, p: Path) returns (steps': seq<Step>)
    requires p !in s.fs.files && CameTo(h, s, t, steps, Sizing(d, p))
    ensures Alone(h, s, t, steps', s.(tasks := s.tasks - {t}))
  {
    var end;
    steps', end := Go(h, s, t, steps, Goto(s, t, Sizing(d, p)), Advance(t));
    assert s.tasks[t := Sizing(d, p)] - {t} == s.tasks - {t};
  }

  predicate HandsOff(task: Task)
  {
    IsHandoff(task) || task.Copying?
  }

  /** Whatever else runs: no step but a crash ends a handoff without a reply, unless the path it was
      about to use is gone; and the step that ends it otherwise sends exactly one reply, which names
      its digest and holds the whole of the opened file. */
  lemma HandoffEnds(h: Hash, s: State, step: Step, t: TaskId)
    requires Inv(h, s) && Next(h, s, step).Some? && !step.Crash?
    requires t in s.tasks && HandsOff(s.tasks[t]) && t !in Next(h, s, step).value.tasks
    ensures var task, s' := s.tasks[t], Next(h, s, step).value;
            if task.Copying? then
              && task.ino in s.fs.inodes && h(s.fs.inodes[task.ino]) == task.digest
              && s'.sent == s.sent + [Reply(task.digest, task.size, s.fs.inodes[task.ino])]
            else (task.Sizing? || task.Opening?) && task.path !in s.fs.files && s'.sent == s.sent
  {
    assert TaskOk(h, s.fs, s.tasks[t]);
    if step.Advance? {
      CallOf(s, step.t, t);
    } else if step.CopyChunk? {
      CopyOf(h, s, step.t, step.n, t);
    } else {
      OtherEndsNone(h, s, step, t);
    }
  }

  lemma OtherEndsNone(h: Hash, s: State, step: Step, t: TaskId)
    requires Next(h, s, step).Some? && !step.Crash? && !step.Advance? && !step.CopyChunk?
    requires t in s.tasks && HandsOff(s.tasks[t])
    ensures t in Next(h, s, step).value.tasks
  {
    match step {
      case StartImport(_, _, _) =>
      case StartDownload(_, _, _, _, _, _, _, _) =>
      case CreateStage(_, _) =>
      case WriteChunk(_, _) =>
      case Finish(_) =>
      case Abandon(_, _) =>
      case StartPrune(_, _, _, _, _) =>
      case StartHandoff(_, _, _) =>
      case OpenDest(_, _) =>
      case Pin(_) =>
      case Unpin(_) =>
    }
  }

  lemma CopyOf(h: Hash, s: State, u: TaskId, n: nat, t: TaskId)
    requires Next(h, s, CopyChunk(u, n)).Some? && t in s.tasks && t !in Next(h, s, CopyChunk(u, n)).value.tasks
    requires TaskOk(h, s.fs, s.tasks[t])
    ensures var task := s.tasks[t];
            && u == t && task.Copying? && task.ino in s.fs.inodes && task.copied == s.fs.inodes[task.ino]
            && Next(h, s, CopyChunk(u, n)).value.sent == s.sent + [Reply(task.digest, task.size, task.copied)]
  {
  }

  lemma CallOf(s: State, u: TaskId, t: TaskId)
    requires Backed(s.fs) && u in s.tasks && Advanced(s, u, s.tasks[u]).Some?
    requires t in s.tasks && HandsOff(s.tasks[t]) && t !in Advanced(s, u, s.tasks[u]).value.tasks
    ensures u == t && (s.tasks[t].Sizing? || s.tasks[t].Opening?) && s.tasks[t].path !in s.fs.files
  {
  }

  /** And no other step sends anything. */
  lemma SentIff(h: Hash, s: State, step: Step)
    requires Next(h, s, step).Some?
    ensures var s' := Next(h, s, step).value;
            s'.sent != s.sent <==> step.CopyChunk? && step.t !in s'.tasks
    ensures var s' := Next(h, s, step).value; s'.sent == s.sent || |s'.sent| == |s.sent| + 1
  {
    match step {
      case StartImport(_, _, _) =>
      case StartDownload(_, _, _, _, _, _, _, _) =>
      case CreateStage(_, _) =>
      case WriteChunk(_, _) =>
      case Finish(_) =>
      case Abandon(_, _) =>
      case Advance(_) =>
      case StartPrune(_, _, _, _, _) =>
      case StartHandoff(_, _, _) =>
      case CopyChunk(_, _) =>
      case OpenDest(_, _) =>
      case Pin(_) =>
      case Unpin(_) =>
      case Crash(_) =>
    }
  }

  // ----- Tasks that stop early

  /** A staging task given up is gone; its staging file goes with it iff there is one and the caller
      cleans up, and nothing else changes. */
  lemma AbandonIs(h: Hash, s: State, t: TaskId, cleanUp: bool)
    requires t in s.tasks && (s.tasks[t].Named? || s.tasks[t].Writing?)
    ensures Next(h, s, Abandon(t, cleanUp)).Some?
    ensures var s' := Next(h, s, Abandon(t, cleanUp)).value;
            var gone := if cleanUp && s.tasks[t].Writing? then {Stage(FileName(s.tasks[t].id))} else {};
            s' == s.(tasks := s.tasks - {t}, fs := s.fs.(files := s.fs.files - gone))
  {
    assert s.fs.files - {} == s.fs.files;
  }

  /** A commit whose link fails opens the flat file and then, when that is there, the destination of the
      copy; when it is not, the copy fails and the commit goes on to its tag. The tree stays as it is. */
  lemma LinkFails(h: Hash, s: State, t: TaskId, d: Digest, job: Job) returns (steps: seq<Step>)
    requires t in s.tasks && s.tasks[t] == Linking(d, job) && job.Download?
    requires var flat := if job.format.Gguf? then FlatGguf(d) else FlatSafetensors(d);
             flat !in s.fs.files || Standard(d) in s.fs.files
    ensures var flat := if job.format.Gguf? then FlatGguf(d) else FlatSafetensors(d);
            Alone(h, s, t, steps, s.(tasks := s.tasks[t :=
              if flat in s.fs.files then OpeningDest(d, job, s.fs.files[flat]) else Tagging(d, job)]))
  {
    var flat := if job.format.Gguf? then FlatGguf(d) else FlatSafetensors(d);
    var next := if flat in s.fs.files then OpeningDest(d, job, s.fs.files[flat]) else Tagging(d, job);
    CameToIt(h, s, t);
    steps := Onward(h, s, t, [], Linking(d, job), OpeningSource(d, job));
    steps := Onward(h, s, t, steps, OpeningSource(d, job), next);
  }

  // ----- Pins and crashes

  /** A pin protects its digest from then on, and an unpin ends that; other pins stay as they are. */
  lemma PinsAre(h: Hash, s: State, d: Digest, name: string)
    requires IsDigest(d)
    ensures Next(h, s, Pin(d)).Some? && Next(h, s, Unpin(d)).Some?
    ensures IsPinned(Next(h, s, Pin(d)).value.pinned, name) <==> IsPinned(s.pinned, name) || Trim(name) == d
    ensures IsPinned(Next(h, s, Unpin(d)).value.pinned, name) <==> IsPinned(s.pinned, name) && Trim(name) != d
    ensures Next(h, s, Pin(d)).value.(pinned := s.pinned) == s == Next(h, s, Unpin(d)).value.(pinned := s.pinned)
  {
  }

  /** A crash ends every task of its process and no other, starts that process's counters again, and
      leaves the tree, the pins, the tags and what was sent. */
  lemma CrashIs(h: Hash, s: State, pid: Pid)
    requires Inv(h, s)
    ensures Next(h, s, Crash(pid)).Some?
    ensures var s' := Next(h, s, Crash(pid)).value;
            && (forall t :: t in s'.tasks <==> t in s.tasks && !(t in s.owner && s.owner[t] == pid))
            && (forall t | t in s'.tasks :: s'.tasks[t] == s.tasks[t])
            && Counter(s', true, pid) == 0 && Counter(s', false, pid) == 1
            && (forall k, p: Pid | p != pid :: Counter(s', k, p) == Counter(s, k, p))
            && s'.fs == s.fs && s'.pinned == s.pinned && s'.tags == s.tags && s'.sent == s.sent
  {
  }
}
