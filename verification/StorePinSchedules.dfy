/** Two schedules in which a pin does not help: it was set too late, or the file is being relinked
    just as a reader opens it. */
module StorePinSchedules {
  import opened Wrappers
  import opened Digests
  import opened Filesystem
  import opened StageNames
  import opened StoreMachine
  import opened StoreSchedules
  import opened StorePins

  // ----- A first download has committed its file

  /** Nothing runs but task 1, nothing is pinned or staged but what task 1 stages under `own`. */
  ghost predicate Alone(h: Hash, steps: seq<Step>, s: State, task: Task, own: Path)
  {
    && Reached(h, steps, s) && s.tasks.Keys == {1} && s.tasks[1] == task && s.pinned == {}
    && s.fs.inodes.Keys == {1} && s.counters.Keys <= {(false, 1)}
    && forall p | p in s.fs.files && p.Stage? :: p == own
  }

  lemma Ready(h: Hash) returns (steps: seq<Step>, s: State, id: StageId)
    ensures Alone(h, steps, s, Committing(id, 1, h([0]), JOB), StagePath(id)) && s.fs.files.Keys == {StagePath(id)}
  {
    id := NextId(INIT, 1);
    steps, s := Staged(h, [], INIT, 1, 1);
  }

  lemma RenameOnly(fs: Fs, from: Path, to: Path)
    requires fs.files.Keys == {from} && from != to
    ensures Rename(fs, from, to).files.Keys == {to} && Rename(fs, from, to).inodes == fs.inodes
  {
  }

  lemma Moved(h: Hash) returns (steps: seq<Step>, s: State)
    ensures var d := h([0]); Alone(h, steps, s, Unlinking(d, JOB), FlatGguf(d)) && s.fs.files.Keys == {FlatGguf(d)}
  {
    var steps0, s0, id := Ready(h);
    RenameOnly(s0.fs, StagePath(id), FlatGguf(h([0])));
    steps, s := ExtendCall(h, steps0, s0, 1);
    assert s.fs == Rename(s0.fs, StagePath(id), FlatGguf(h([0])));
  }

  lemma Freed(h: Hash) returns (steps: seq<Step>, s: State)
    ensures var d := h([0]); Alone(h, steps, s, Linking(d, JOB), FlatGguf(d)) && s.fs.files.Keys == {FlatGguf(d)}
  {
    steps, s := Moved(h);
    steps, s := ExtendCall(h, steps, s, 1);
  }

  lemma LinkOnly(fs: Fs, from: Path, to: Path)
    requires fs.files.Keys == {from} && from != to
    ensures Link(fs, from, to).files.Keys == {from, to} && Link(fs, from, to).inodes == fs.inodes
  {
  }

  lemma Linked(h: Hash) returns (steps: seq<Step>, s: State)
    ensures var d := h([0]);
            Alone(h, steps, s, Tagging(d, JOB), FlatGguf(d)) && s.fs.files.Keys == {FlatGguf(d), Standard(d)}
  {
    var d, steps0, s0 := h([0]), [], INIT;
    steps0, s0 := Freed(h);
    LinkOnly(s0.fs, FlatGguf(d), Standard(d));
    assert Call(s0, Linking(d, JOB)) == ThenOn(s0, Link(s0.fs, FlatGguf(d), Standard(d)), Tagging(d, JOB));
    steps, s := ExtendCall(h, steps0, s0, 1);
  }

  /** Nothing runs, and the file is at both its locations. */
  ghost predicate Idle(h: Hash, steps: seq<Step>, s: State)
  {
    && Reached(h, steps, s) && s.tasks == map[] && s.pinned == {} && s.fs.inodes.Keys == {1}
    && s.fs.files.Keys == {FlatGguf(h([0])), Standard(h([0]))} && s.counters.Keys <= {(false, 1)}
  }

  lemma Tagged(h: Hash) returns (steps: seq<Step>, s: State)
    ensures Idle(h, steps, s)
  {
    steps, s := Linked(h);
    steps, s := ExtendCall(h, steps, s, 1);
  }

  // ----- A pin set too late

  lemma Swept(h: Hash) returns (steps: seq<Step>, s: State)
    ensures var d := h([0]); Reached(h, steps, s) && s.tasks == map[3 := Pruning(Sweep([Entry(d, 1)], 1, 0, 0))]
    ensures s.pinned == {} && s.fs.files.Keys == {FlatGguf(h([0])), Standard(h([0]))}
  {
    steps, s := Tagged(h);
    steps, s := Extend(h, steps, s, StartPrune(3, 3, [Entry(h([0]), 1)], 1, 0));
  }

  lemma Chosen(h: Hash) returns (steps: seq<Step>, s: State)
    ensures var d := h([0]);
            Reached(h, steps, s) && s.tasks == map[3 := DroppingStandard(Entry(d, 1), Sweep([], 1, 0, 0))]
    ensures s.pinned == {} && s.fs.files.Keys == {FlatGguf(h([0])), Standard(h([0]))}
  {
    steps, s := Swept(h);
    assert [Entry(h([0]), 1)][1..] == [];
    steps, s := ExtendCall(h, steps, s, 3);
  }

  lemma PinnedLate(h: Hash) returns (steps: seq<Step>, s: State)
    requires IsDigest(h([0]))
    ensures var d := h([0]);
            Reached(h, steps, s) && s.tasks == map[3 := DroppingStandard(Entry(d, 1), Sweep([], 1, 0, 0))]
    ensures s.pinned == {h([0])} && s.fs.files.Keys == {FlatGguf(h([0])), Standard(h([0]))}
  {
    steps, s := Chosen(h);
    steps, s := Extend(h, steps, s, Pin(h([0])));
  }

  /** A pin set after a prune's test of the digest is no protection: pinned all the while, the digest
      loses both its files in the prune's next two calls. */
  lemma LatePinLosesFiles(h: Hash) returns (steps: seq<Step>, s: State)
    requires IsDigest(h([0]))
    ensures Reached(h, steps, s) && h([0]) in s.pinned && Present(s.fs, h([0]))
    ensures var s1, s2 := Next(h, s, Advance(3)), Run(h, s, [Advance(3), Advance(3)]);
            && s1.Some? && h([0]) in s1.value.pinned
            && s2.Some? && h([0]) in s2.value.pinned && !Present(s2.value.fs, h([0]))
  {
    steps, s := PinnedLate(h);
    var steps1, s1 := ExtendCall(h, steps, s, 3);
    var steps2, s2 := ExtendCall(h, steps1, s1, 3);
    RunTwo(h, s, Advance(3), Advance(3));
  }

  lemma RunTwo(h: Hash, s: State, a: Step, b: Step)
    requires Next(h, s, a).Some?
    ensures Run(h, s, [a, b]) == Next(h, Next(h, s, a).value, b)
  {
    assert [a, b][1..] == [b] && [b][1..] == [];
    assert Run(h, Next(h, s, a).value, [b]) == match Next(h, Next(h, s, a).value, b)
                                              case None => None
                                              case Some(s') => Run(h, s', []);
  }

  // ----- A file relinked while a reader opens it

  lemma Pinned(h: Hash) returns (steps: seq<Step>, s: State)
    requires IsDigest(h([0]))
    ensures Reached(h, steps, s) && s.tasks == map[] && s.pinned == {h([0])} && s.fs.inodes.Keys == {1}
    ensures s.fs.files.Keys == {FlatGguf(h([0])), Standard(h([0]))}
  {
    steps, s := Tagged(h);
    steps, s := Extend(h, steps, s, Pin(h([0])));
  }

  /** The same file is about to be committed again. */
  lemma Again(h: Hash) returns (steps: seq<Step>, s: State, id: StageId)
    requires IsDigest(h([0]))
    ensures Reached(h, steps, s) && s.tasks == map[2 := Committing(id, 2, h([0]), JOB)] && s.pinned == {h([0])}
    ensures s.fs.files.Keys == {FlatGguf(h([0])), Standard(h([0])), StagePath(id)}
  {
    var steps1, s1 := Pinned(h);
    id := NextId(s1, 2);
    steps, s := Staged(h, steps1, s1, 2, 2);
  }

  ghost predicate Reading(h: Hash, steps: seq<Step>, s: State, id: StageId, reader: Task)
  {
    && Reached(h, steps, s) && s.tasks == map[2 := Committing(id, 2, h([0]), JOB), 3 := reader]
    && s.pinned == {h([0])} && s.fs.files.Keys == {FlatGguf(h([0])), Standard(h([0])), StagePath(id)}
  }

  lemma Asked(h: Hash) returns (steps: seq<Step>, s: State, id: StageId)
    requires IsDigest(h([0]))
    ensures Reading(h, steps, s, id, SizeProbing(h([0]), 0))
  {
    steps, s, id := Again(h);
    steps, s := Extend(h, steps, s, StartHandoff(3, 3, h([0])));
  }

  lemma FoundIt(h: Hash) returns (steps: seq<Step>, s: State, id: StageId)
    requires IsDigest(h([0]))
    ensures Reading(h, steps, s, id, Sizing(h([0]), Standard(h([0]))))
  {
    steps, s, id := Asked(h);
    steps, s := ExtendCall(h, steps, s, 3);
  }

  /** The commit renames its file over the flat one while the reader holds the path it found. */
  lemma Overtakes(h: Hash, steps: seq<Step>, s: State, id: StageId) returns (s1: State)
    requires Reading(h, steps, s, id, Sizing(h([0]), Standard(h([0]))))
    ensures Next(h, s, Advance(2)) == Some(s1) && s1.pinned == s.pinned
    ensures s1.tasks == map[2 := Unlinking(h([0]), JOB), 3 := Sizing(h([0]), Standard(h([0])))]
  {
    s1 := Applied(s, 2, Call(s, s.tasks[2]).value);
  }

  lemma UnlinksUnder(h: Hash, s1: State) returns (s2: State)
    requires s1.tasks == map[2 := Unlinking(h([0]), JOB), 3 := Sizing(h([0]), Standard(h([0])))]
    ensures Next(h, s1, Advance(2)) == Some(s2) && s2.pinned == s1.pinned && Standard(h([0])) !in s2.fs.files
    ensures 3 in s2.tasks && s2.tasks[3] == Sizing(h([0]), Standard(h([0])))
  {
    s2 := Applied(s1, 2, Call(s1, s1.tasks[2]).value);
  }

  lemma SizingMisses(h: Hash, s: State, t: TaskId, d: Digest)
    requires t in s.tasks && s.tasks[t] == Sizing(d, Standard(d)) && Standard(d) !in s.fs.files
    ensures Next(h, s, Advance(t)) == Some(End(s, t))
  {
    assert s.(fs := s.fs, tags := s.tags) == s;
  }

  lemma ReaderAvailable(h: Hash, steps: seq<Step>, s: State, id: StageId)
    requires IsDigest(h([0])) && Reading(h, steps, s, id, Sizing(h([0]), Standard(h([0]))))
    ensures Available(s, h([0]))
  {
    PinnedIff(s.pinned, h([0]));
    forall t | t in s.tasks ensures !Dropping(s.tasks[t], h([0])) && !Relinking(s.tasks[t], h([0])) {
      assert t == 2 || t == 3;
    }
  }

  /** A handoff of a digest that is pinned and available all the while still fails: it finds the
      standard file, two calls of a commit of the same digest unlink it, and its next call ends the
      handoff without a reply. */
  lemma HandoffMisses(h: Hash) returns (steps: seq<Step>, s: State)
    requires IsDigest(h([0]))
    ensures var d := h([0]);
            && Reached(h, steps, s) && Available(s, d) && Standard(d) in s.fs.files
            && 3 in s.tasks && s.tasks[3] == Sizing(d, Standard(d))
    ensures var end := Run(h, s, [Advance(2), Advance(2)]);
            && end.Some? && h([0]) in end.value.pinned
            && Next(h, end.value, Advance(3)) == Some(End(end.value, 3))
  {
    var id;
    steps, s, id := FoundIt(h);
    ReaderAvailable(h, steps, s, id);
    var s1 := Overtakes(h, steps, s, id);
    var s2 := UnlinksUnder(h, s1);
    SizingMisses(h, s2, 3, h([0]));
    assert Run(h, s, [Advance(2), Advance(2)]) == Some(s2) by {
      RunTwo(h, s, Advance(2), Advance(2));
    }
  }
}
