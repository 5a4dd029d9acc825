/** What a prune guarantees, over every disk, quota, set of pins and listing order. */
module PruneProperties {
  import opened Digests
  import opened Sums
  import opened Sorting
  import opened CasNames
  import opened Prune

  // ----- One run, over the counted blobs

  /** The facts every run rests on. */
  lemma RunFacts(counted: map<string, File>, bs: seq<Blob>, max: nat, spare: string -> bool)
    requires Lists(bs, counted)
    ensures var sorted, gone := Sort(bs, NoNewer), Gone(counted, bs, max, spare);
            && Lists(sorted, counted) && Sorted(sorted, NoNewer) && SumSizes(sorted) == Total(Sizes(counted))
            && Distinct(gone) && Sorted(gone, NoNewer)
            && (forall b | b in gone ::
                  b in sorted && b.digest in counted && counted[b.digest] == b.file && Unpinned(spare, b))
            && Total(Sizes(counted)) == Total(Sizes(counted - DigestsOf(gone))) + SumSizes(gone)
  {
    var sorted, gone := Sort(bs, NoNewer), Gone(counted, bs, max, spare);
    var total := Total(Sizes(counted));
    SortLists(bs, counted);
    ListsSum(sorted, counted);
    EvictTakes(sorted, total, max, spare);
    EvictDistinct(sorted, total, max, spare);
    EvictSorted(sorted, total, max, spare);
    TotalRemoved(counted, gone);
  }

  lemma {:induction false} EvictSorted(bs: seq<Blob>, total: nat, max: nat, spare: string -> bool)
    requires Sorted(bs, NoNewer) && SumSizes(bs) <= total
    ensures Sorted(Evict(bs, total, max, spare), NoNewer)
    decreases |bs|
  {
    EvictTakes(bs, total, max, spare);
    if bs != [] && total > max {
      if spare(bs[0].digest) {
        EvictSorted(bs[1..], total, max, spare);
      } else {
        var rest := Evict(bs[1..], total - bs[0].file.size, max, spare);
        EvictSorted(bs[1..], total - bs[0].file.size, max, spare);
        EvictTakes(bs[1..], total - bs[0].file.size, max, spare);
        forall i | 0 <= i < |rest| ensures NoNewer(bs[0], rest[i]) {
          assert rest[i] in rest;
        }
      }
    }
  }

  lemma QuotaMet(counted: map<string, File>, bs: seq<Blob>, max: nat, spare: string -> bool)
    requires Lists(bs, counted)
    ensures var left := counted - DigestsOf(Gone(counted, bs, max, spare));
            Total(Sizes(left)) <= max || forall d | d in left :: spare(d)
  {
    RunFacts(counted, bs, max, spare);
    EvictMeetsQuota(Sort(bs, NoNewer), Total(Sizes(counted)), max, spare);
    var gone := Gone(counted, bs, max, spare);
    var left := counted - DigestsOf(gone);
    if Total(Sizes(left)) > max {
      forall d | d in left ensures spare(d) {
        assert Blob(d, counted[d]) in Sort(bs, NoNewer) && Blob(d, counted[d]) !in gone;
      }
    }
  }

  lemma SparedStay(counted: map<string, File>, bs: seq<Blob>, max: nat, spare: string -> bool, d: string)
    requires Lists(bs, counted) && spare(d)
    ensures d !in DigestsOf(Gone(counted, bs, max, spare))
  {
    RunFacts(counted, bs, max, spare);
  }

  lemma OldestFirst(counted: map<string, File>, bs: seq<Blob>, max: nat, spare: string -> bool, e: string, d: string)
    requires Lists(bs, counted)
    requires var left := counted - DigestsOf(Gone(counted, bs, max, spare));
             e in counted && e !in left && d in left && !spare(d)
    ensures counted[e].mtime <= counted[d].mtime
  {
    RunFacts(counted, bs, max, spare);
    var gone := Gone(counted, bs, max, spare);
    var out :| out in gone && out.digest == e;
    assert Blob(d, counted[d]) in Sort(bs, NoNewer) && Blob(d, counted[d]) !in gone;
    EvictInOrder(Sort(bs, NoNewer), NoNewer, Total(Sizes(counted)), max, spare, out, Blob(d, counted[d]));
  }

  lemma LastNeeded(counted: map<string, File>, bs: seq<Blob>, max: nat, spare: string -> bool) returns (last: string)
    requires Lists(bs, counted) && Gone(counted, bs, max, spare) != []
    ensures var left := counted - DigestsOf(Gone(counted, bs, max, spare));
            && last in counted && last !in left && Total(Sizes(left)) + counted[last].size > max
            && forall e | e in counted && e !in left :: counted[e].mtime <= counted[last].mtime
  {
    RunFacts(counted, bs, max, spare);
    var gone := Gone(counted, bs, max, spare);
    EvictMinimal(Sort(bs, NoNewer), Total(Sizes(counted)), max, spare);
    LastIsNewest(gone);
    assert gone[|gone| - 1] in gone;
    last := gone[|gone| - 1].digest;
  }

  lemma LastIsNewest(bs: seq<Blob>)
    requires bs != [] && Sorted(bs, NoNewer)
    ensures forall b | b in bs :: NoNewer(b, bs[|bs| - 1])
  {
    forall b | b in bs ensures NoNewer(b, bs[|bs| - 1]) {
      var i :| 0 <= i < |bs| && bs[i] == b;
    }
  }

  // ----- The theorems, over disks

  /** Conservation: a fresh scan finds exactly the returned bytes missing, so the running total
      never saturated, and what was counted before and not removed is counted unchanged. */
  lemma PruneConserves(disk: Disk, pinned: set<string>, max: nat, disk': Disk, reclaimed: nat)
    requires Pruned(disk, pinned, max, disk', reclaimed)
    ensures CountedTotal(disk) == CountedTotal(disk') + reclaimed
    ensures forall d | d in Counted(disk') :: d in Counted(disk) && Counted(disk')[d] == Counted(disk)[d]
  {
    var bs :| RanOn(bs, disk, pinned, max, disk', reclaimed);
    RunFacts(Counted(disk), bs, max, PinTest(pinned));
    CountedRemoved(disk, DigestsOf(Gone(Counted(disk), bs, max, PinTest(pinned))));
  }

  lemma FitsOrPinned(disk: Disk, pinned: set<string>, max: nat, disk': Disk, reclaimed: nat)
    requires Pruned(disk, pinned, max, disk', reclaimed)
    ensures CountedTotal(disk') <= max || forall d | d in Counted(disk') :: IsPinned(pinned, d)
  {
    var bs :| RanOn(bs, disk, pinned, max, disk', reclaimed);
    QuotaMet(Counted(disk), bs, max, PinTest(pinned));
    CountedRemoved(disk, DigestsOf(Gone(Counted(disk), bs, max, PinTest(pinned))));
    assert forall d :: PinTest(pinned)(d) == IsPinned(pinned, d);
  }

  lemma PinnedStayCounted(disk: Disk, pinned: set<string>, max: nat, disk': Disk, reclaimed: nat, d: string)
    requires Pruned(disk, pinned, max, disk', reclaimed) && d in Counted(disk) && IsPinned(pinned, d)
    ensures d in Counted(disk')
  {
    var bs :| RanOn(bs, disk, pinned, max, disk', reclaimed);
    assert PinTest(pinned)(d);
    SparedStay(Counted(disk), bs, max, PinTest(pinned), d);
    CountedRemoved(disk, DigestsOf(Gone(Counted(disk), bs, max, PinTest(pinned))));
  }

  /** The counted blobs that are pinned. */
  ghost function PinnedPart(disk: Disk, pinned: set<string>): map<string, File>
  {
    map d | d in Counted(disk) && IsPinned(pinned, d) :: Counted(disk)[d]
  }

  /** Quota: afterwards the total fits, or only pinned blobs are left. It fits exactly when the
      pinned blobs alone do, which a caller can tell beforehand. */
  lemma PruneMeetsQuota(disk: Disk, pinned: set<string>, max: nat, disk': Disk, reclaimed: nat)
    requires Pruned(disk, pinned, max, disk', reclaimed)
    ensures CountedTotal(disk') <= max || forall d | d in Counted(disk') :: IsPinned(pinned, d)
    ensures CountedTotal(disk') <= max <==> Total(Sizes(PinnedPart(disk, pinned))) <= max
  {
    FitsOrPinned(disk, pinned, max, disk', reclaimed);
    PruneConserves(disk, pinned, max, disk', reclaimed);
    var kept, all := Sizes(PinnedPart(disk, pinned)), Sizes(Counted(disk'));
    forall d | d in kept ensures d in all && all[d] == kept[d] {
      PinnedStayCounted(disk, pinned, max, disk', reclaimed, d);
    }
    TotalPart(all, kept);
    if CountedTotal(disk') > max {
      TotalPart(kept, all);
    }
  }

  lemma {:induction false} NothingToEvict(bs: seq<Blob>, total: nat, max: nat, spare: string -> bool)
    requires total <= max || forall b | b in bs :: spare(b.digest)
    ensures Evict(bs, total, max, spare) == []
    decreases |bs|
  {
    if bs != [] && total > max {
      NothingToEvict(bs[1..], total, max, spare);
    }
  }

  lemma NothingGone(counted: map<string, File>, bs: seq<Blob>, max: nat, spare: string -> bool)
    requires Lists(bs, counted)
    requires Total(Sizes(counted)) <= max || forall d | d in counted :: spare(d)
    ensures Gone(counted, bs, max, spare) == []
  {
    SortLists(bs, counted);
    NothingToEvict(Sort(bs, NoNewer), Total(Sizes(counted)), max, spare);
  }

  /** Idempotence: a second prune to the same quota finds nothing to do, whatever the times. */
  lemma PruneIsIdempotent(disk: Disk, pinned: set<string>, max: nat, disk1: Disk, r1: nat, disk2: Disk, r2: nat)
    requires Pruned(disk, pinned, max, disk1, r1) && Pruned(disk1, pinned, max, disk2, r2)
    ensures disk2 == disk1 && r2 == 0
  {
    FitsOrPinned(disk, pinned, max, disk1, r1);
    var bs :| RanOn(bs, disk1, pinned, max, disk2, r2);
    assert forall d :: PinTest(pinned)(d) == IsPinned(pinned, d);
    NothingGone(Counted(disk1), bs, max, PinTest(pinned));
    RemovedNone(disk1);
  }

  /** Pins: a pinned digest keeps both its files. */
  lemma PruneSparesPinned(disk: Disk, pinned: set<string>, max: nat, disk': Disk, reclaimed: nat, d: string)
    requires Pruned(disk, pinned, max, disk', reclaimed) && IsPinned(pinned, d)
    ensures d in disk.standard ==> d in disk'.standard && disk'.standard[d] == disk.standard[d]
    ensures Gguf(d) in disk.cas ==> Gguf(d) in disk'.cas && disk'.cas[Gguf(d)] == disk.cas[Gguf(d)]
  {
    var bs :| RanOn(bs, disk, pinned, max, disk', reclaimed);
    assert PinTest(pinned)(d);
    SparedStay(Counted(disk), bs, max, PinTest(pinned), d);
    RemovedSpares(disk, DigestsOf(Gone(Counted(disk), bs, max, PinTest(pinned))), d);
  }

  /** Both files of a digest go or neither does, unchanged if they stay; every other file of the disk
      stays as it is. */
  lemma PruneTakesBoth(disk: Disk, pinned: set<string>, max: nat, disk': Disk, reclaimed: nat, d: string)
    requires Pruned(disk, pinned, max, disk', reclaimed)
    ensures || (d !in disk'.standard && Gguf(d) !in disk'.cas)
            || (disk'.standard.Keys * {d} == disk.standard.Keys * {d}
                && disk'.cas.Keys * {Gguf(d)} == disk.cas.Keys * {Gguf(d)})
    ensures forall e | e in disk'.standard :: e in disk.standard && disk'.standard[e] == disk.standard[e]
    ensures forall n | n in disk'.cas :: n in disk.cas && disk'.cas[n] == disk.cas[n]
    ensures forall n | n in disk.cas && !n.Gguf? :: n in disk'.cas
  {
    var bs :| RanOn(bs, disk, pinned, max, disk', reclaimed);
    var ds := DigestsOf(Gone(Counted(disk), bs, max, PinTest(pinned)));
    assert Gguf(d) in FlatNames(ds) <==> d in ds;
  }

  /** Least recently used: no removed blob is newer than an unpinned one that stays. */
  lemma PruneIsLru(disk: Disk, pinned: set<string>, max: nat, disk': Disk, reclaimed: nat, e: string, d: string)
    requires Pruned(disk, pinned, max, disk', reclaimed)
    requires e in Counted(disk) && e !in Counted(disk') && d in Counted(disk') && !IsPinned(pinned, d)
    ensures d in Counted(disk) && Counted(disk)[e].mtime <= Counted(disk)[d].mtime
  {
    var bs :| RanOn(bs, disk, pinned, max, disk', reclaimed);
    CountedRemoved(disk, DigestsOf(Gone(Counted(disk), bs, max, PinTest(pinned))));
    OldestFirst(Counted(disk), bs, max, PinTest(pinned), e, d);
  }

  /** Minimality: a prune that removed something needed its last removal to reach the quota. */
  lemma PruneIsMinimal(disk: Disk, pinned: set<string>, max: nat, disk': Disk, reclaimed: nat) returns (last: string)
    requires Pruned(disk, pinned, max, disk', reclaimed) && Counted(disk') != Counted(disk)
    ensures last in Counted(disk) && last !in Counted(disk')
    ensures CountedTotal(disk') + Counted(disk)[last].size > max
    ensures forall e | e in Counted(disk) && e !in Counted(disk') :: Counted(disk)[e].mtime <= Counted(disk)[last].mtime
  {
    var bs :| RanOn(bs, disk, pinned, max, disk', reclaimed);
    var gone := Gone(Counted(disk), bs, max, PinTest(pinned));
    CountedRemoved(disk, DigestsOf(gone));
    assert gone == [] ==> Counted(disk) - DigestsOf(gone) == Counted(disk);
    last := LastNeeded(Counted(disk), bs, max, PinTest(pinned));
  }
}
