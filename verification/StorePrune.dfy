/** A prune of the step machine against the eviction loop: left alone, it removes exactly what the loop
    takes from its list and counts as much, so it is one run of prune on the disk. */
module StorePrune {
  import opened Wrappers
  import opened Bytes
  import opened Digests
  import opened Filesystem
  import opened StoreMachine
  import opened StoreAlone
  import opened StoreProcedures
  import opened StoreSafety
  import opened StoreAccounting
  import P = Prune
  import N = CasNames
  import Sorting

  /** The list of a prune, as the machine has it. */
  function EntriesOf(bs: seq<P.Blob>): seq<Entry>
  {
    if bs == [] then [] else [Entry(bs[0].digest, bs[0].file.size)] + EntriesOf(bs[1..])
  }

  /** The tree without the standard and the flat GGUF file of some digests. */
  ghost function Dropped(fs: Fs, ds: set<Digest>): Fs
  {
    fs.(files := map p | p in fs.files && !((p.Standard? || p.FlatGguf?) && p.digest in ds) :: fs.files[p])
  }

  /** The digest has one of the two files a prune removes. */
  predicate HasFile(fs: Fs, d: Digest)
  {
    Standard(d) in fs.files || FlatGguf(d) in fs.files
  }

  /** The digests a prune passes over: those pinned, and those whose files are gone by now. */
  function Passed(pinned: set<Digest>, fs: Fs): string -> bool
  {
    d => IsPinned(pinned, d) || !HasFile(fs, d)
  }

  /** `spare` tells which blobs of the list are passed over. */
  ghost predicate Spares(spare: string -> bool, pinned: set<Digest>, fs: Fs, bs: seq<P.Blob>)
  {
    forall b | b in bs :: spare(b.digest) <==> IsPinned(pinned, b.digest) || !HasFile(fs, b.digest)
  }

  lemma DroppedNone(fs: Fs)
    ensures Dropped(fs, {}) == fs
  {
  }

  lemma DroppedOne(fs: Fs, d: Digest)
    ensures Unlink(Unlink(fs, Standard(d)), FlatGguf(d)) == Dropped(fs, {d})
  {
  }

  lemma DroppedTwice(fs: Fs, ds: set<Digest>, es: set<Digest>)
    ensures Dropped(Dropped(fs, ds), es) == Dropped(fs, ds + es)
  {
  }

  lemma RestSpared(spare: string -> bool, pinned: set<Digest>, fs: Fs, bs: seq<P.Blob>)
    requires bs != [] && P.Distinct(bs) && Spares(spare, pinned, fs, bs)
    ensures Spares(spare, pinned, fs, bs[1..]) && Spares(spare, pinned, Dropped(fs, {bs[0].digest}), bs[1..])
  {
    forall b | b in bs[1..] ensures b in bs && b.digest != bs[0].digest {
      var i :| 0 <= i < |bs[1..]| && bs[1..][i] == b;
      assert bs[i + 1] == b;
    }
  }

  lemma DigestsCons(b: P.Blob, gone: seq<P.Blob>)
    ensures P.DigestsOf([b] + gone) == {b.digest} + P.DigestsOf(gone)
  {
    assert forall x :: x in [b] + gone <==> x == b || x in gone;
  }

  // ----- The calls of the loop

  lemma HeadTested(h: Hash, s: State, t: TaskId, fs: Fs, e: Entry, rest: Sweep)
    requires rest.total > rest.max
    ensures Next(h, Where(s, t, fs, Pruning(rest.(todo := [e] + rest.todo))), Advance(t))
            == Some(Where(s, t, fs, if IsPinned(s.pinned, e.digest) then Pruning(rest) else DroppingStandard(e, rest)))
  {
    var first := rest.(todo := [e] + rest.todo);
    assert first.todo[1..] == rest.todo && first.(todo := rest.todo) == rest;
    CallAt(h, s, t, fs, Pruning(first), fs,
           if IsPinned(s.pinned, e.digest) then Pruning(rest) else DroppingStandard(e, rest));
  }

  lemma StandardDropped(h: Hash, s: State, t: TaskId, fs: Fs, e: Entry, rest: Sweep)
    ensures Next(h, Where(s, t, fs, DroppingStandard(e, rest)), Advance(t))
            == Some(Where(s, t, Unlink(fs, Standard(e.digest)), DroppingFlat(e, rest, Standard(e.digest) in fs.files)))
  {
    CallAt(h, s, t, fs, DroppingStandard(e, rest), Unlink(fs, Standard(e.digest)),
           DroppingFlat(e, rest, Standard(e.digest) in fs.files));
  }

  lemma FlatDropped(h: Hash, s: State, t: TaskId, fs: Fs, e: Entry, rest: Sweep, dropped: bool)
    ensures Next(h, Where(s, t, fs, DroppingFlat(e, rest, dropped)), Advance(t))
            == Some(Where(s, t, Unlink(fs, FlatGguf(e.digest)), Pruning(
                 if dropped || FlatGguf(e.digest) in fs.files
                 then Sweep(rest.todo, SaturatingSub(rest.total, e.size), rest.reclaimed + e.size, rest.max)
                 else rest)))
  {
    CallAt(h, s, t, fs, DroppingFlat(e, rest, dropped), Unlink(fs, FlatGguf(e.digest)), Pruning(
      if dropped || FlatGguf(e.digest) in fs.files
      then Sweep(rest.todo, SaturatingSub(rest.total, e.size), rest.reclaimed + e.size, rest.max)
      else rest));
  }

  /** An unpinned blob at the head: three calls remove its two files and, if there was one, take its
      size off the total. */
  lemma HeadDropped(h: Hash, s: State, t: TaskId, steps: seq<Step>, fs: Fs, e: Entry, rest: Sweep)
    returns (steps': seq<Step>)
    requires Leads(h, s, t, steps, fs, Pruning(rest.(todo := [e] + rest.todo)))
    requires rest.total > rest.max && !IsPinned(s.pinned, e.digest)
    ensures Leads(h, s, t, steps', Dropped(fs, {e.digest}), Pruning(
              if HasFile(fs, e.digest)
              then Sweep(rest.todo, SaturatingSub(rest.total, e.size), rest.reclaimed + e.size, rest.max)
              else rest))
  {
    var half, had := Unlink(fs, Standard(e.digest)), Standard(e.digest) in fs.files;
    HeadTested(h, s, t, fs, e, rest);
    steps' := Onto(h, s, t, steps, fs, Pruning(rest.(todo := [e] + rest.todo)), Advance(t),
                   fs, DroppingStandard(e, rest));
    StandardDropped(h, s, t, fs, e, rest);
    steps' := Onto(h, s, t, steps', fs, DroppingStandard(e, rest), Advance(t), half, DroppingFlat(e, rest, had));
    FlatDropped(h, s, t, half, e, rest, had);
    DroppedOne(fs, e.digest);
    steps' := Onto(h, s, t, steps', half, DroppingFlat(e, rest, had), Advance(t), Dropped(fs, {e.digest}), Pruning(
      if HasFile(fs, e.digest)
      then Sweep(rest.todo, SaturatingSub(rest.total, e.size), rest.reclaimed + e.size, rest.max)
      else rest));
  }

  lemma Stops(h: Hash, s: State, t: TaskId, fs: Fs, sweep: Sweep)
    requires t !in s.tasks && (sweep.todo == [] || sweep.total <= sweep.max)
    ensures Next(h, Where(s, t, fs, Pruning(sweep)), Advance(t)) == Some(s.(fs := fs))
  {
    assert s.tasks[t := Pruning(sweep)] - {t} == s.tasks;
  }

  // ----- The loop

  /** The loop has dropped what `Evict` takes from `bs`, counted it, and has no reason to go on. */
  ghost predicate LoopDone(fs: Fs, bs: seq<P.Blob>, sweep: Sweep, spare: string -> bool, fs': Fs, end: Sweep)
  {
    var gone := P.Evict(bs, sweep.total, sweep.max, spare);
    && fs' == Dropped(fs, P.DigestsOf(gone)) && end.reclaimed == sweep.reclaimed + P.SumSizes(gone)
    && end.max == sweep.max && (end.todo == [] || end.total <= end.max)
  }

  lemma LoopStops(fs: Fs, bs: seq<P.Blob>, sweep: Sweep, spare: string -> bool)
    requires sweep.todo == EntriesOf(bs) && (bs == [] || sweep.total <= sweep.max)
    ensures LoopDone(fs, bs, sweep, spare, fs, sweep)
  {
    DroppedNone(fs);
    assert P.DigestsOf([]) == {};
  }

  lemma LoopPasses(fs: Fs, bs: seq<P.Blob>, sweep: Sweep, spare: string -> bool, fs': Fs, end: Sweep)
    requires bs != [] && sweep.total > sweep.max && spare(bs[0].digest)
    requires LoopDone(fs, bs[1..], sweep.(todo := EntriesOf(bs[1..])), spare, fs', end)
    ensures LoopDone(fs, bs, sweep, spare, fs', end)
  {
  }

  lemma LoopDrops(fs: Fs, bs: seq<P.Blob>, sweep: Sweep, spare: string -> bool, fs': Fs, end: Sweep)
    requires bs != [] && sweep.total > sweep.max && !spare(bs[0].digest)
    requires var size := bs[0].file.size;
             LoopDone(Dropped(fs, {bs[0].digest}), bs[1..],
                      Sweep(EntriesOf(bs[1..]), SaturatingSub(sweep.total, size), sweep.reclaimed + size, sweep.max),
                      spare, fs', end)
    ensures LoopDone(fs, bs, sweep, spare, fs', end)
  {
    var rest := P.Evict(bs[1..], SaturatingSub(sweep.total, bs[0].file.size), sweep.max, spare);
    DroppedTwice(fs, {bs[0].digest}, P.DigestsOf(rest));
    DigestsCons(bs[0], rest);
    assert ([bs[0]] + rest)[1..] == rest;
  }

  lemma {:induction false} LoopRuns(h: Hash, s: State, t: TaskId, steps: seq<Step>, fs: Fs, bs: seq<P.Blob>,
                                    sweep: Sweep, spare: string -> bool)
    returns (steps': seq<Step>, fs': Fs, end: Sweep)
    requires Leads(h, s, t, steps, fs, Pruning(sweep)) && sweep.todo == EntriesOf(bs)
    requires P.Distinct(bs) && Spares(spare, s.pinned, fs, bs)
    ensures Leads(h, s, t, steps', fs', Pruning(end)) && LoopDone(fs, bs, sweep, spare, fs', end)
    decreases |bs|
  {
    if bs == [] || sweep.total <= sweep.max {
      LoopStops(fs, bs, sweep, spare);
      steps', fs', end := steps, fs, sweep;
    } else {
      var e, rest := Entry(bs[0].digest, bs[0].file.size), sweep.(todo := EntriesOf(bs[1..]));
      assert bs[0] in bs && rest.(todo := [e] + rest.todo) == sweep;
      RestSpared(spare, s.pinned, fs, bs);
      if IsPinned(s.pinned, e.digest) {
        HeadTested(h, s, t, fs, e, rest);
        steps' := Onto(h, s, t, steps, fs, Pruning(sweep), Advance(t), fs, Pruning(rest));
        steps', fs', end := LoopRuns(h, s, t, steps', fs, bs[1..], rest, spare);
        LoopPasses(fs, bs, sweep, spare, fs', end);
      } else {
        steps' := HeadDropped(h, s, t, steps, fs, e, rest);
        if HasFile(fs, e.digest) {
          steps', fs', end := LoopRuns(h, s, t, steps', Dropped(fs, {e.digest}), bs[1..],
            Sweep(rest.todo, SaturatingSub(rest.total, e.size), rest.reclaimed + e.size, rest.max), spare);
          LoopDrops(fs, bs, sweep, spare, fs', end);
        } else {
          DroppedNothing(fs, e.digest);
          steps', fs', end := LoopRuns(h, s, t, steps', fs, bs[1..], rest, spare);
          LoopPasses(fs, bs, sweep, spare, fs', end);
        }
      }
    }
  }

  lemma DroppedNothing(fs: Fs, d: Digest)
    requires !HasFile(fs, d)
    ensures Dropped(fs, {d}) == fs
  {
    assert Dropped(fs, {d}).files == fs.files;
  }

  /** When the loop has no reason to go on, the next call ends the task. */
  lemma LoopEnds(h: Hash, s: State, s0: State, t: TaskId, steps: seq<Step>, fs: Fs, sweep: Sweep)
    requires t !in s0.tasks && (sweep.todo == [] || sweep.total <= sweep.max)
    requires Alone(h, s, t, steps, Where(s0, t, fs, Pruning(sweep)))
    ensures Alone(h, s, t, steps + [Advance(t)], s0.(fs := fs))
  {
    var at := Where(s0, t, fs, Pruning(sweep));
    Stops(h, s0, t, fs, sweep);
    OneStep(h, at, t, Advance(t));
    Chain(h, s, t, steps, at, [Advance(t)], s0.(fs := fs));
  }

  lemma LoopStarts(h: Hash, s: State, t: TaskId, pid: Pid, sweep: Sweep)
    requires t !in s.tasks && sweep.reclaimed == 0
    ensures Alone(h, s, t, [StartPrune(t, pid, sweep.todo, sweep.total, sweep.max)],
                  Where(s.(owner := s.owner[t := pid]), t, s.fs, Pruning(sweep)))
  {
    var start := StartPrune(t, pid, sweep.todo, sweep.total, sweep.max);
    OneStep(h, s, t, start);
    assert Next(h, s, start) == Some(Where(s.(owner := s.owner[t := pid]), t, s.fs, Pruning(sweep)));
  }

  lemma PassedSpares(pinned: set<Digest>, fs: Fs, bs: seq<P.Blob>)
    ensures Spares(Passed(pinned, fs), pinned, fs, bs)
  {
  }

  lemma WhereTwice(s: State, t: TaskId, fs: Fs, task: Task, fs': Fs, task': Task)
    ensures Where(Where(s, t, fs, task), t, fs', task') == Where(s, t, fs', task')
  {
    assert s.tasks[t := task][t := task'] == s.tasks[t := task'];
  }

  lemma NoStepsYet(h: Hash, s: State, t: TaskId, fs: Fs, task: Task)
    ensures Leads(h, Where(s, t, fs, task), t, [], fs, task)
  {
    WhereTwice(s, t, fs, task, fs, task);
  }

  /** From the list to the end of the loop. */
  lemma LoopFrom(h: Hash, s: State, t: TaskId, pid: Pid, bs: seq<P.Blob>, sweep: Sweep)
    returns (steps: seq<Step>, fs': Fs, end: Sweep)
    requires t !in s.tasks && P.Distinct(bs) && sweep == Sweep(EntriesOf(bs), sweep.total, 0, sweep.max)
    ensures steps != [] && steps[0] == StartPrune(t, pid, EntriesOf(bs), sweep.total, sweep.max)
    ensures Alone(h, s, t, steps, Where(s.(owner := s.owner[t := pid]), t, fs', Pruning(end)))
    ensures LoopDone(s.fs, bs, sweep, Passed(s.pinned, s.fs), fs', end)
  {
    var start := [StartPrune(t, pid, EntriesOf(bs), sweep.total, sweep.max)];
    var s0 := s.(owner := s.owner[t := pid]);
    var s1 := Where(s0, t, s.fs, Pruning(sweep));
    LoopStarts(h, s, t, pid, sweep);
    NoStepsYet(h, s0, t, s.fs, Pruning(sweep));
    PassedSpares(s.pinned, s.fs, bs);
    steps, fs', end := LoopRuns(h, s1, t, [], s.fs, bs, sweep, Passed(s.pinned, s.fs));
    WhereTwice(s0, t, s.fs, Pruning(sweep), fs', Pruning(end));
    Chain(h, s, t, start, s1, steps, Where(s0, t, fs', Pruning(end)));
    steps := start + steps;
  }

  /** Left alone, a prune that has listed `bs` with some total removes the standard and the flat GGUF
      file of exactly the blobs the eviction loop takes from that list, where it passes over those that
      are pinned and those that have no file any more; it has counted the sizes of what it took when it
      ends, and changes nothing else. */
  lemma PruneAlone(h: Hash, s: State, t: TaskId, pid: Pid, bs: seq<P.Blob>, total: nat, max: nat)
    returns (steps: seq<Step>, end: Sweep)
    requires t !in s.tasks && P.Distinct(bs)
    ensures var gone := P.Evict(bs, total, max, Passed(s.pinned, s.fs));
            var fs' := Dropped(s.fs, P.DigestsOf(gone));
            && steps != [] && steps[0] == StartPrune(t, pid, EntriesOf(bs), total, max)
            && Alone(h, s, t, steps[..|steps| - 1],
                     s.(fs := fs', tasks := s.tasks[t := Pruning(end)], owner := s.owner[t := pid]))
            && end.reclaimed == P.SumSizes(gone)
            && Alone(h, s, t, steps, s.(fs := fs', owner := s.owner[t := pid]))
  {
    var fs';
    steps, fs', end := LoopFrom(h, s, t, pid, bs, Sweep(EntriesOf(bs), total, 0, max));
    LoopEnds(h, s, s.(owner := s.owner[t := pid]), t, steps, fs', end);
    steps := steps + [Advance(t)];
  }

  // ----- What that is on the disk

  /** Tests that agree on the list take the same. */
  lemma {:induction false} EvictSame(bs: seq<P.Blob>, total: nat, max: nat, p: string -> bool, q: string -> bool)
    requires forall b | b in bs :: p(b.digest) == q(b.digest)
    ensures P.Evict(bs, total, max, p) == P.Evict(bs, total, max, q)
    decreases |bs|
  {
    if bs != [] && total > max {
      assert bs[0] in bs;
      EvictSame(bs[1..], if p(bs[0].digest) then total else SaturatingSub(total, bs[0].file.size), max, p, q);
    }
  }

  lemma DroppedDisk(fs: Fs, ds: set<Digest>, times: Inode -> nat)
    requires Backed(fs)
    ensures Backed(Dropped(fs, ds)) && DiskOf(Dropped(fs, ds), times) == P.Removed(DiskOf(fs, times), ds)
  {
    var a, b := DiskOf(Dropped(fs, ds), times), P.Removed(DiskOf(fs, times), ds);
    forall d: Digest
      ensures d in a.standard <==> d in b.standard
      ensures d in a.standard ==> a.standard[d] == b.standard[d]
    {
      DiskIs(fs, times, d);
      DiskIs(Dropped(fs, ds), times, d);
    }
    forall n: N.CasName
      ensures n in a.cas <==> n in b.cas
      ensures n in a.cas ==> a.cas[n] == b.cas[n]
    {
      var d := if n.Other? then "" else n.digest;
      DiskIs(fs, times, d);
      DiskIs(Dropped(fs, ds), times, d);
      assert n in P.FlatNames(ds) <==> n.Gguf? && d in ds;
    }
    assert a.standard == b.standard && a.cas == b.cas;
  }

  lemma ListedPresent(fs: Fs, times: Inode -> nat, bs: seq<P.Blob>)
    requires Backed(fs) && P.Lists(bs, P.Counted(DiskOf(fs, times)))
    ensures forall b | b in bs :: HasFile(fs, b.digest)
  {
    forall b | b in bs ensures HasFile(fs, b.digest) {
      DiskIs(fs, times, b.digest);
    }
  }

  /** Left alone, a prune that starts with the sorted list and the total of a scan is one run of prune in
      the sense of the theorems on disks: what those say of the disk afterwards, of the bytes returned and
      of what goes first holds of what the task leaves. */
  lemma PruneOfDisk(h: Hash, s: State, t: TaskId, pid: Pid, times: Inode -> nat, bs: seq<P.Blob>, max: nat)
    returns (steps: seq<Step>, fs': Fs, end: Sweep)
    requires t !in s.tasks && Backed(s.fs)
    requires var disk := DiskOf(s.fs, times);
             P.Lists(bs, P.Counted(disk)) && P.StandardFirst(bs, disk.standard.Keys)
    ensures var disk, sorted := DiskOf(s.fs, times), Sorting.Sort(bs, P.NoNewer);
            && steps != [] && steps[0] == StartPrune(t, pid, EntriesOf(sorted), P.CountedTotal(disk), max)
            && Alone(h, s, t, steps, s.(fs := fs', owner := s.owner[t := pid]))
            && Alone(h, s, t, steps[..|steps| - 1],
                     s.(fs := fs', tasks := s.tasks[t := Pruning(end)], owner := s.owner[t := pid]))
            && Backed(fs') && P.Pruned(disk, s.pinned, max, DiskOf(fs', times), end.reclaimed)
  {
    var disk, sorted := DiskOf(s.fs, times), Sorting.Sort(bs, P.NoNewer);
    P.SortLists(bs, P.Counted(disk));
    steps, end := PruneAlone(h, s, t, pid, sorted, P.CountedTotal(disk), max);
    ListedPresent(s.fs, times, sorted);
    EvictSame(sorted, P.CountedTotal(disk), max, Passed(s.pinned, s.fs), P.PinTest(s.pinned));
    var gone := P.Gone(P.Counted(disk), bs, max, P.PinTest(s.pinned));
    fs' := Dropped(s.fs, P.DigestsOf(gone));
    DroppedDisk(s.fs, P.DigestsOf(gone), times);
    assert P.RanOn(bs, disk, s.pinned, max, DiskOf(fs', times), end.reclaimed);
  }
}
