/** A schedule that reaches the copy fallback, so that its absence is a real condition. */
module StoreFallback {
  import opened Filesystem
  import opened StageNames
  import opened StoreMachine
  import opened StoreSafety
  import opened StoreSchedules

  // Two downloads of the one-byte file, by processes 1 and 2, taking turns.

  /** Both tasks are at the given points after a schedule without fallback, and nothing has been
      linked at a standard location yet. */
  ghost predicate Both(h: Hash, steps: seq<Step>, s: State, one: Task, two: Task)
  {
    && Reached(h, steps, s)
    && 1 in s.tasks && s.tasks[1] == one && 2 in s.tasks && s.tasks[2] == two
    && s.fs.inodes.Keys == {1, 2} && forall p | p in s.fs.files :: !p.Standard?
  }

  lemma NextNamesApart(s: State, s': State)
    ensures StagePath(NextId(s, 1)) != StagePath(NextId(s', 2))
  {
    if FileName(NextId(s, 1)) == FileName(NextId(s', 2)) {
      NamesApart(NextId(s, 1), NextId(s', 2));
    }
  }

  lemma HashedOne(h: Hash) returns (steps: seq<Step>, s: State, a: StageId)
    ensures Reached(h, steps, s) && s.tasks.Keys == {1} && s.tasks[1] == Committing(a, 1, h([0]), JOB)
    ensures a == NextId(INIT, 1) && s.fs.files.Keys == {StagePath(a)} && s.fs.inodes.Keys == {1}
  {
    a := NextId(INIT, 1);
    steps, s := Staged(h, [], INIT, 1, 1);
  }

  lemma Hashed(h: Hash) returns (steps: seq<Step>, s: State, a: StageId, b: StageId)
    ensures Both(h, steps, s, Committing(a, 1, h([0]), JOB), Committing(b, 2, h([0]), JOB))
    ensures StagePath(a) != StagePath(b) && StagePath(a) in s.fs.files && StagePath(b) in s.fs.files
  {
    var steps1, s1;
    steps1, s1, a := HashedOne(h);
    b := NextId(s1, 2);
    NextNamesApart(INIT, s1);
    steps, s := Staged(h, steps1, s1, 2, 2);
  }

  lemma RenamedOne(h: Hash) returns (steps: seq<Step>, s: State, b: StageId)
    ensures Both(h, steps, s, Unlinking(h([0]), JOB), Committing(b, 2, h([0]), JOB))
    ensures FlatGguf(h([0])) in s.fs.files && StagePath(b) in s.fs.files
  {
    var a;
    steps, s, a, b := Hashed(h);
    steps, s := ExtendCall(h, steps, s, 1);
  }

  lemma Renamed(h: Hash) returns (steps: seq<Step>, s: State)
    ensures Both(h, steps, s, Unlinking(h([0]), JOB), Unlinking(h([0]), JOB)) && FlatGguf(h([0])) in s.fs.files
  {
    var b;
    steps, s, b := RenamedOne(h);
    steps, s := ExtendCall(h, steps, s, 2);
  }

  lemma UnlinkedOne(h: Hash) returns (steps: seq<Step>, s: State)
    ensures Both(h, steps, s, Linking(h([0]), JOB), Unlinking(h([0]), JOB)) && FlatGguf(h([0])) in s.fs.files
  {
    steps, s := Renamed(h);
    steps, s := ExtendCall(h, steps, s, 1);
  }

  lemma Unlinked(h: Hash) returns (steps: seq<Step>, s: State)
    ensures Both(h, steps, s, Linking(h([0]), JOB), Linking(h([0]), JOB)) && FlatGguf(h([0])) in s.fs.files
  {
    steps, s := UnlinkedOne(h);
    steps, s := ExtendCall(h, steps, s, 2);
  }

  /** The first download has linked its file; the second is about to link the same one. */
  lemma LinkedOne(h: Hash) returns (steps: seq<Step>, s: State)
    ensures Reached(h, steps, s)
    ensures 2 in s.tasks && s.tasks[2] == Linking(h([0]), JOB) && s.fs.inodes.Keys == {1, 2}
    ensures FlatGguf(h([0])) in s.fs.files && Standard(h([0])) in s.fs.files
    ensures s.fs.files[FlatGguf(h([0]))] == s.fs.files[Standard(h([0]))]
  {
    steps, s := Unlinked(h);
    steps, s := ExtendCall(h, steps, s, 1);
  }

  /** The second download's hard link has failed, and it has opened the file it links for copying. */
  lemma SourceOpened(h: Hash) returns (steps: seq<Step>, s: State)
    ensures Reached(h, steps, s) && s.fs.inodes.Keys == {1, 2}
    ensures 2 in s.tasks && s.tasks[2].OpeningDest? && s.tasks[2].digest == h([0])
    ensures CopiesItself(s.fs, s.tasks[2])
  {
    steps, s := LinkedOne(h);
    steps, s := ExtendCall(h, steps, s, 2);
    steps, s := ExtendCall(h, steps, s, 2);
  }

  /** The fallback does fire: two downloads of one file, each past the other's unlink, leave the
      second one's hard link with its destination taken, and the store no longer addressed. Source
      and destination being one inode, the copy that follows does not mend it. */
  lemma FallbackReachable(h: Hash) returns (steps: seq<Step>)
    requires h([0]) != h([])
    ensures Run(h, INIT, steps).Some? && NoFallback(h, INIT, steps)
    ensures var s := Run(h, INIT, steps).value;
            && FallbackFires(s, OpenDest(2, 3)) && Next(h, s, OpenDest(2, 3)).Some?
            && var s1 := Next(h, s, OpenDest(2, 3)).value;
            && !Addressed(h, s1.fs)
            && Next(h, s1, Advance(2)).Some? && !Addressed(h, Next(h, s1, Advance(2)).value.fs)
  {
    var s;
    steps, s := SourceOpened(h);
    assert Inv(h, s) by {
      RunKeeps(h, INIT, steps);
    }
    FallbackBreaks(h, s, 2, 3);
    RefillRestoresIff(h, s, 2, 3);
  }
}
