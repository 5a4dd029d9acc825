/** Pins over all runs: a prune that starts after a digest was pinned never removes its files,
    whatever else runs in between. */
module StorePins {
  import opened Wrappers
  import opened Digests
  import opened Filesystem
  import opened StoreMachine
  import opened StoreSafety

  predicate Dropping(task: Task, d: Digest)
  {
    (task.DroppingStandard? || task.DroppingFlat?) && task.entry.digest == d
  }

  /** A commit of `d` between its rename and its link. */
  predicate Relinking(task: Task, d: Digest)
  {
    (task.Unlinking? || task.Linking?) && task.digest == d
  }

  /** `d` is pinned and no prune is already past its pin test of `d`. */
  ghost predicate Protected(s: State, d: Digest)
  {
    IsPinned(s.pinned, d) && forall t | t in s.tasks :: !Dropping(s.tasks[t], d)
  }

  /** Step `step` is the unlink with which a commit of `d` makes room for its hard link. */
  predicate CommitUnlinks(s: State, step: Step, d: Digest)
  {
    step.Advance? && step.t in s.tasks && s.tasks[step.t].Unlinking? && s.tasks[step.t].digest == d
  }

  /** A task's call removes only files of the digest it is dropping or relinking; a prune starts
      dropping unpinned digests only; a commit starts relinking just after putting its flat file
      in place. */
  lemma CallEffect(s: State, task: Task, d: Digest)
    requires Call(s, task).Some?
    ensures var e := Call(s, task).value;
      && (FlatSafetensors(d) in s.fs.files ==> FlatSafetensors(d) in e.fs.files)
      && (FlatGguf(d) in s.fs.files ==> FlatGguf(d) in e.fs.files || Dropping(task, d))
      && (Standard(d) in s.fs.files ==>
            Standard(d) in e.fs.files || Dropping(task, d) || (task.Unlinking? && task.digest == d))
      && (e.next.Some? && Dropping(e.next.value, d) ==> Dropping(task, d) || !IsPinned(s.pinned, d))
      && (e.next.Some? && Relinking(e.next.value, d) ==>
            || (Relinking(task, d) && e.next.value.job == task.job)
            || (e.next.value.job.Download? && Flat(e.next.value.job.format, d) in e.fs.files))
  {
    match task {
      case Named(_, _) =>
      case Writing(_, _, _, _) =>
      case Copying(_, _, _, _) =>
      case OpeningSource(_, _) =>
      case OpeningDest(_, _, _) =>
      case Overwriting(_, _, _, _) =>
      case Probing(_, _, _, _) =>
      case Moving(_, _, _, _) =>
      case Committing(_, _, _, _) =>
      case Unlinking(_, _) =>
      case Linking(_, _) =>
      case Tagging(_, _) =>
      case Pruning(_) =>
      case DroppingStandard(_, _) =>
      case DroppingFlat(_, _, _) =>
      case SizeProbing(_, _) =>
      case Sizing(_, _) =>
      case OpenProbing(_, _, _) =>
      case Opening(_, _, _) =>
    }
  }

  /** Every other step keeps all locations. */
  lemma OtherKeepsLocations(h: Hash, s: State, step: Step)
    requires Next(h, s, step).Some? && !step.Advance?
    ensures forall p | p in s.fs.files && !p.Stage? :: p in Next(h, s, step).value.fs.files
  {
    match step {
      case StartImport(_, _, _) =>
      case StartDownload(_, _, _, _, _, _, _, _) =>
      case CreateStage(_, _) =>
      case WriteChunk(_, _) =>
      case Finish(_) =>
      case Abandon(_, _) =>
      case StartPrune(_, _, _, _, _) =>
      case StartHandoff(_, _, _) =>
      case CopyChunk(_, _) =>
      case OpenDest(_, _) =>
      case Pin(_) =>
      case Unpin(_) =>
      case Crash(_) =>
    }
  }

  predicate Harmless(task: Task)
  {
    !task.DroppingStandard? && !task.DroppingFlat? && !task.Unlinking? && !task.Linking?
  }

  /** Every other step starts neither a removal nor a relink. */
  lemma OtherStartsHarmless(h: Hash, s: State, step: Step, u: TaskId)
    requires Next(h, s, step).Some? && !step.Advance? && u in Next(h, s, step).value.tasks
    ensures var s' := Next(h, s, step).value;
            (u in s.tasks && s'.tasks[u] == s.tasks[u]) || Harmless(s'.tasks[u])
  {
  }

  predicate DropsFlat(s: State, step: Step, d: Digest)
  {
    && step.Advance? && step.t in s.tasks
    && s.tasks[step.t].DroppingFlat? && s.tasks[step.t].entry.digest == d
  }

  predicate DropsStandard(s: State, step: Step, d: Digest)
  {
    && step.Advance? && step.t in s.tasks
    && s.tasks[step.t].DroppingStandard? && s.tasks[step.t].entry.digest == d
  }

  /** Step by step: the only thing that takes the flat file of a digest away is a prune already past
      its pin test of it; the standard file also goes when a commit relinks it; the other flat file
      never goes. */
  lemma RemovedIff(h: Hash, s: State, step: Step, d: Digest)
    requires Next(h, s, step).Some?
    ensures var after := Next(h, s, step).value.fs.files;
            && (FlatGguf(d) in s.fs.files ==> (FlatGguf(d) !in after <==> DropsFlat(s, step, d)))
            && (Standard(d) in s.fs.files ==>
                  (Standard(d) !in after <==> DropsStandard(s, step, d) || CommitUnlinks(s, step, d)))
            && (FlatSafetensors(d) in s.fs.files ==> FlatSafetensors(d) in after)
  {
    if step.Advance? {
      CallRemoves(s, s.tasks[step.t], d);
    } else {
      OtherKeepsLocations(h, s, step);
    }
  }

  lemma CallRemoves(s: State, task: Task, d: Digest)
    requires Call(s, task).Some?
    ensures var after := Call(s, task).value.fs.files;
      && (FlatGguf(d) in s.fs.files ==> (FlatGguf(d) !in after <==> task.DroppingFlat? && task.entry.digest == d))
      && (Standard(d) in s.fs.files ==>
            (Standard(d) !in after <==>
               (task.DroppingStandard? && task.entry.digest == d) || (task.Unlinking? && task.digest == d)))
      && (FlatSafetensors(d) in s.fs.files ==> FlatSafetensors(d) in after)
  {
  }

  lemma ProtectionKept(h: Hash, s: State, step: Step, d: Digest)
    requires Protected(s, d) && Next(h, s, step).Some? && IsPinned(Next(h, s, step).value.pinned, d)
    ensures Protected(Next(h, s, step).value, d)
    ensures FlatGguf(d) in s.fs.files ==> FlatGguf(d) in Next(h, s, step).value.fs.files
    ensures FlatSafetensors(d) in s.fs.files ==> FlatSafetensors(d) in Next(h, s, step).value.fs.files
    ensures Standard(d) in s.fs.files && !CommitUnlinks(s, step, d) ==> Standard(d) in Next(h, s, step).value.fs.files
  {
    RemovedIff(h, s, step, d);
    var s' := Next(h, s, step).value;
    forall u | u in s'.tasks ensures !Dropping(s'.tasks[u], d) {
      if step.Advance? {
        CallEffect(s, s.tasks[step.t], d);
      } else {
        OtherStartsHarmless(h, s, step, u);
      }
    }
  }

  /** `d` is pinned in every state of the schedule. */
  ghost predicate PinnedThroughout(h: Hash, s: State, steps: seq<Step>, d: Digest)
    decreases |steps|
  {
    IsPinned(s.pinned, d) && (steps == [] || match Next(h, s, steps[0])
                                             case None => true
                                             case Some(s') => PinnedThroughout(h, s', steps[1..], d))
  }

  ghost predicate NoCommitUnlinks(h: Hash, s: State, steps: seq<Step>, d: Digest)
    decreases |steps|
  {
    steps == [] || (!CommitUnlinks(s, steps[0], d) && match Next(h, s, steps[0])
                                                      case None => true
                                                      case Some(s') => NoCommitUnlinks(h, s', steps[1..], d))
  }

  /** Over any schedule with any number of prunes, a digest pinned throughout keeps its flat
      files, and its standard file too unless the digest itself is being committed again. */
  lemma {:induction false} PinnedFilesStay(h: Hash, s: State, steps: seq<Step>, d: Digest)
    requires Protected(s, d) && PinnedThroughout(h, s, steps, d) && Run(h, s, steps).Some?
    ensures var end := Run(h, s, steps).value;
            && Protected(end, d)
            && (FlatGguf(d) in s.fs.files ==> FlatGguf(d) in end.fs.files)
            && (FlatSafetensors(d) in s.fs.files ==> FlatSafetensors(d) in end.fs.files)
            && (Standard(d) in s.fs.files && NoCommitUnlinks(h, s, steps, d) ==> Standard(d) in end.fs.files)
    decreases |steps|
  {
    if steps != [] {
      ProtectionKept(h, s, steps[0], d);
      PinnedFilesStay(h, Next(h, s, steps[0]).value, steps[1..], d);
    }
  }

  /** A pinned digest that can be found, with the flat file of every commit of it in place. */
  ghost predicate Available(s: State, d: Digest)
  {
    && Protected(s, d) && Present(s.fs, d)
    && forall t | t in s.tasks && Relinking(s.tasks[t], d) && s.tasks[t].job.Download? ::
         Flat(s.tasks[t].job.format, d) in s.fs.files
  }

  lemma RelinkKeepsFlat(h: Hash, s: State, step: Step, d: Digest, u: TaskId)
    requires Available(s, d) && Next(h, s, step).Some? && IsPinned(Next(h, s, step).value.pinned, d)
    requires var s' := Next(h, s, step).value;
             u in s'.tasks && Relinking(s'.tasks[u], d) && s'.tasks[u].job.Download?
    ensures var s' := Next(h, s, step).value; Flat(s'.tasks[u].job.format, d) in s'.fs.files
  {
    ProtectionKept(h, s, step, d);
    if step.Advance? {
      CallEffect(s, s.tasks[step.t], d);
    } else {
      OtherStartsHarmless(h, s, step, u);
    }
  }

  lemma StaysPresent(h: Hash, s: State, step: Step, d: Digest)
    requires Available(s, d) && Next(h, s, step).Some? && IsPinned(Next(h, s, step).value.pinned, d)
    ensures Present(Next(h, s, step).value.fs, d)
  {
    ProtectionKept(h, s, step, d);
    if CommitUnlinks(s, step, d) {
      assert Relinking(s.tasks[step.t], d);
    }
  }

  lemma AvailabilityKept(h: Hash, s: State, step: Step, d: Digest)
    requires Available(s, d) && Next(h, s, step).Some? && IsPinned(Next(h, s, step).value.pinned, d)
    ensures Available(Next(h, s, step).value, d)
  {
    ProtectionKept(h, s, step, d);
    StaysPresent(h, s, step, d);
    var s' := Next(h, s, step).value;
    forall u | u in s'.tasks && Relinking(s'.tasks[u], d) && s'.tasks[u].job.Download?
      ensures Flat(s'.tasks[u].job.format, d) in s'.fs.files
    {
      RelinkKeepsFlat(h, s, step, d, u);
    }
  }

  /** Over any schedule, commits of that very digest included, one of the three locations of a
      digest pinned throughout exists at the end, hence in every state on the way. */
  lemma {:induction false} PinnedStaysAvailable(h: Hash, s: State, steps: seq<Step>, d: Digest)
    requires Available(s, d)
    requires PinnedThroughout(h, s, steps, d) && Run(h, s, steps).Some?
    ensures Available(Run(h, s, steps).value, d)
    decreases |steps|
  {
    if steps != [] {
      AvailabilityKept(h, s, steps[0], d);
      PinnedStaysAvailable(h, Next(h, s, steps[0]).value, steps[1..], d);
    }
  }

  // ----- Looking a pinned digest up, one test at a time

  /** The task is testing the locations of `d` in turn. */
  predicate LooksFor(task: Task, d: Digest)
  {
    (task.Probing? || task.SizeProbing? || task.OpenProbing?) && task.digest == d
  }

  /** A lookup at its `k`-th test has not passed every file of `d` by. */
  predicate Ahead(fs: Fs, d: Digest, k: nat)
  {
    k == 0 || (k == 1 && FlatGguf(d) in fs.files) || FlatSafetensors(d) in fs.files
  }

  ghost predicate LookupsAhead(s: State, d: Digest)
  {
    forall t | t in s.tasks && LooksFor(s.tasks[t], d) :: Ahead(s.fs, d, s.tasks[t].k)
  }

  /** A lookup begins at its first test, or goes on to the next one after a miss. */
  lemma CallLooks(s: State, task: Task, d: Digest)
    requires Call(s, task).Some? && Call(s, task).value.next.Some? && LooksFor(Call(s, task).value.next.value, d)
    ensures var k := Call(s, task).value.next.value.k;
            k == 0 || (LooksFor(task, d) && k == task.k + 1 && Location(d, task.k) !in s.fs.files && task.k < 2)
  {
  }

  lemma OtherLooks(h: Hash, s: State, step: Step, d: Digest, t: TaskId)
    requires Next(h, s, step).Some? && !step.Advance?
    requires t in Next(h, s, step).value.tasks && LooksFor(Next(h, s, step).value.tasks[t], d)
    ensures var s' := Next(h, s, step).value;
            s'.tasks[t].k == 0 || (t in s.tasks && s.tasks[t] == s'.tasks[t])
  {
  }

  lemma LookupsStayAhead(h: Hash, s: State, step: Step, d: Digest)
    requires Available(s, d) && LookupsAhead(s, d)
    requires Next(h, s, step).Some? && IsPinned(Next(h, s, step).value.pinned, d)
    ensures LookupsAhead(Next(h, s, step).value, d)
  {
    var s' := Next(h, s, step).value;
    ProtectionKept(h, s, step, d);
    forall t | t in s'.tasks && LooksFor(s'.tasks[t], d) ensures Ahead(s'.fs, d, s'.tasks[t].k) {
      if !step.Advance? {
        OtherLooks(h, s, step, d, t);
      } else if step.t == t {
        CallLooks(s, s.tasks[t], d);
      }
    }
  }

  /** The step ends a lookup of `d` at a path that is not there. */
  predicate LookupMisses(s: State, step: Step, d: Digest)
  {
    && step.Advance? && step.t in s.tasks && LooksFor(s.tasks[step.t], d)
    && Found(s.fs, d, s.tasks[step.t].k).Some? && Found(s.fs, d, s.tasks[step.t].k).value !in s.fs.files
  }

  ghost predicate NoLookupMisses(h: Hash, s: State, steps: seq<Step>, d: Digest)
    decreases |steps|
  {
    steps == [] || (!LookupMisses(s, steps[0], d) && match Next(h, s, steps[0])
                                                     case None => true
                                                     case Some(s') => NoLookupMisses(h, s', steps[1..], d))
  }

  /** Although its three tests happen at different moments, a lookup of a digest pinned throughout
      always ends at a location that is there when it is tested. */
  lemma {:induction false} LookupsHit(h: Hash, s: State, steps: seq<Step>, d: Digest)
    requires Available(s, d) && LookupsAhead(s, d)
    requires PinnedThroughout(h, s, steps, d) && Run(h, s, steps).Some?
    ensures NoLookupMisses(h, s, steps, d)
    decreases |steps|
  {
    if steps != [] {
      AvailabilityKept(h, s, steps[0], d);
      LookupsStayAhead(h, s, steps[0], d);
      LookupsHit(h, Next(h, s, steps[0]).value, steps[1..], d);
    }
  }

  // ----- What can happen between the lookup and the use of its path

  /** The standard file is absent in every state of the schedule. */
  ghost predicate StandardAbsent(h: Hash, s: State, steps: seq<Step>, d: Digest)
    decreases |steps|
  {
    Standard(d) !in s.fs.files && (steps == [] || match Next(h, s, steps[0])
                                                  case None => true
                                                  case Some(s') => StandardAbsent(h, s', steps[1..], d))
  }

  /** Some step of the schedule is the unlink of a commit of `d`, and nothing has put the standard
      file back since. */
  ghost predicate UnlinkedSince(h: Hash, s: State, steps: seq<Step>, d: Digest)
    decreases |steps|
  {
    steps != [] && match Next(h, s, steps[0])
                   case None => false
                   case Some(s') =>
                     || (CommitUnlinks(s, steps[0], d) && StandardAbsent(h, s', steps[1..], d))
                     || UnlinkedSince(h, s', steps[1..], d)
  }

  lemma {:induction false} AbsentAtEnd(h: Hash, s: State, steps: seq<Step>, d: Digest)
    requires Run(h, s, steps).Some?
    requires StandardAbsent(h, s, steps, d) || UnlinkedSince(h, s, steps, d)
    ensures Standard(d) !in Run(h, s, steps).value.fs.files
    decreases |steps|
  {
    if steps != [] {
      AbsentAtEnd(h, Next(h, s, steps[0]).value, steps[1..], d);
    }
  }

  lemma {:induction false} WhyAbsent(h: Hash, s: State, steps: seq<Step>, d: Digest)
    requires Protected(s, d) && PinnedThroughout(h, s, steps, d) && Run(h, s, steps).Some?
    requires Standard(d) !in Run(h, s, steps).value.fs.files
    ensures StandardAbsent(h, s, steps, d) || UnlinkedSince(h, s, steps, d)
    decreases |steps|
  {
    if steps != [] {
      ProtectionKept(h, s, steps[0], d);
      WhyAbsent(h, Next(h, s, steps[0]).value, steps[1..], d);
    }
  }

  lemma {:induction false} FlatsStay(h: Hash, s: State, steps: seq<Step>, d: Digest)
    requires Protected(s, d) && PinnedThroughout(h, s, steps, d) && Run(h, s, steps).Some?
    ensures FlatGguf(d) in s.fs.files ==> FlatGguf(d) in Run(h, s, steps).value.fs.files
    ensures FlatSafetensors(d) in s.fs.files ==> FlatSafetensors(d) in Run(h, s, steps).value.fs.files
    decreases |steps|
  {
    if steps != [] {
      ProtectionKept(h, s, steps[0], d);
      FlatsStay(h, Next(h, s, steps[0]).value, steps[1..], d);
    }
  }

  /** A path found for a digest pinned throughout is gone later exactly when it is the standard one
      and a commit of that digest has unlinked it since without its link being in place yet. */
  lemma FoundPathGoneIff(h: Hash, s: State, steps: seq<Step>, d: Digest, p: Path)
    requires Protected(s, d) && PinnedThroughout(h, s, steps, d) && Run(h, s, steps).Some?
    requires p in s.fs.files && p in {Standard(d), FlatGguf(d), FlatSafetensors(d)}
    ensures p !in Run(h, s, steps).value.fs.files <==> p == Standard(d) && UnlinkedSince(h, s, steps, d)
  {
    FlatsStay(h, s, steps, d);
    if p == Standard(d) {
      if p !in Run(h, s, steps).value.fs.files {
        WhyAbsent(h, s, steps, d);
      } else if UnlinkedSince(h, s, steps, d) {
        AbsentAtEnd(h, s, steps, d);
      }
    }
  }

  /** The next call of a handoff that is about to use the path it found ends it without a reply
      exactly when the path is gone. */
  lemma UseFailsIff(s: State, t: TaskId)
    requires t in s.tasks && (s.tasks[t].Sizing? || s.tasks[t].Opening?) && Backed(s.fs)
    ensures Advanced(s, t, s.tasks[t]) == Some(End(s, t)) <==> s.tasks[t].path !in s.fs.files
  {
    assert t in Goto(s, t, s.tasks[t]).tasks;
  }

  /** So a handoff of a digest pinned throughout can still fail between finding a path and using it,
      and this is exactly when: it found the standard file, and a commit of the same digest has
      unlinked that since without its link being in place yet. */
  lemma HandoffFailsIff(h: Hash, s: State, steps: seq<Step>, t: TaskId, d: Digest)
    requires Protected(s, d) && PinnedThroughout(h, s, steps, d) && Backed(s.fs) && Run(h, s, steps).Some?
    requires t in s.tasks && (s.tasks[t].Sizing? || s.tasks[t].Opening?)
    requires s.tasks[t].path in s.fs.files && s.tasks[t].path in {Standard(d), FlatGguf(d), FlatSafetensors(d)}
    requires var end := Run(h, s, steps).value; t in end.tasks && end.tasks[t] == s.tasks[t]
    ensures var end := Run(h, s, steps).value;
            Advanced(end, t, end.tasks[t]) == Some(End(end, t))
            <==> s.tasks[t].path == Standard(d) && UnlinkedSince(h, s, steps, d)
  {
    RunKeepsBacked(h, s, steps);
    FoundPathGoneIff(h, s, steps, d, s.tasks[t].path);
    UseFailsIff(Run(h, s, steps).value, t);
  }
}
