/** The disk that eviction and the statistics see, as a view of the tree the writers share: what the
    schedules keep true of the tree, the accountings may rely on. */
module StoreAccounting {
  import opened Bytes
  import opened Filesystem
  import opened StoreMachine
  import opened StoreSafety
  import opened CasStore
  import opened Sums
  import P = Prune
  import N = CasNames
  import A = Accounting

  function FileAt(fs: Fs, times: Inode -> nat, p: Path): P.File
    requires Backed(fs) && p in fs.files
  {
    P.File(fs.files[p], |fs.inodes[fs.files[p]]|, times(fs.files[p]))
  }

  function NameOf(p: Path): N.CasName
    requires p.FlatGguf? || p.FlatSafetensors?
  {
    if p.FlatGguf? then N.Gguf(p.digest) else N.Safetensors(p.digest)
  }

  /** The two directories, staging aside; `times` are the modification times of the inodes. */
  ghost function DiskOf(fs: Fs, times: Inode -> nat): P.Disk
    requires Backed(fs)
  {
    P.Disk(map p | p in fs.files && p.Standard? :: p.digest := FileAt(fs, times, p),
           map p | p in fs.files && (p.FlatGguf? || p.FlatSafetensors?) :: NameOf(p) := FileAt(fs, times, p))
  }

  /** The view has every located file under its digest, with its inode and its length, and nothing else. */
  lemma DiskIs(fs: Fs, times: Inode -> nat, d: Digest)
    requires Backed(fs)
    ensures var disk := DiskOf(fs, times);
            && (d in disk.standard <==> Standard(d) in fs.files)
            && (d in disk.standard ==> disk.standard[d] == FileAt(fs, times, Standard(d)))
            && (N.Gguf(d) in disk.cas <==> FlatGguf(d) in fs.files)
            && (N.Gguf(d) in disk.cas ==> disk.cas[N.Gguf(d)] == FileAt(fs, times, FlatGguf(d)))
            && (N.Safetensors(d) in disk.cas <==> FlatSafetensors(d) in fs.files)
            && (N.Safetensors(d) in disk.cas ==> disk.cas[N.Safetensors(d)] == FileAt(fs, times, FlatSafetensors(d)))
            && forall n | n in disk.cas :: !n.Other?
  {
    assert NameOf(FlatGguf(d)) == N.Gguf(d) && NameOf(FlatSafetensors(d)) == N.Safetensors(d);
  }

  /** An addressed tree is an addressed disk. */
  lemma AddressedDisk(h: Hash, fs: Fs, times: Inode -> nat)
    requires Backed(fs) && StoreSafety.Addressed(h, fs)
    ensures A.Addressed(DiskOf(fs, times), h, fs.inodes)
  {
    var disk := DiskOf(fs, times);
    forall d | d in disk.standard ensures A.Named(disk.standard[d], d, h, fs.inodes) {
      assert Standard(d) in fs.files;
    }
    forall n | n in disk.cas && !n.Other? ensures A.Named(disk.cas[n], n.digest, h, fs.inodes) {
      var p :| p in fs.files && (p.FlatGguf? || p.FlatSafetensors?) && NameOf(p) == n;
      assert disk.cas[n] == FileAt(fs, times, p);
    }
  }

  /** In every state of every schedule without fallback the statistics exceed the total of a prune by
      exactly the inodes that stand for no counted file, and agree with it exactly when those are empty. */
  lemma ReachableAccounting(h: Hash, steps: seq<Step>, times: Inode -> nat)
    requires Run(h, INIT, steps).Some? && NoFallback(h, INIT, steps)
    ensures var fs := Run(h, INIT, steps).value.fs;
            && Backed(fs)
            && var disk := DiskOf(fs, times);
            var inodes, counted := A.InodeSizes(disk), A.CountedInodes(disk).Values;
            && Total(inodes) == P.CountedTotal(disk) + Total(inodes - counted)
            && (Total(inodes) == P.CountedTotal(disk) <==> forall i | i in inodes && i !in counted :: inodes[i] == 0)
  {
    RunKeeps(h, INIT, steps);
    var fs := Run(h, INIT, steps).value.fs;
    AddressedDisk(h, fs, times);
    A.StatsExceedPrune(DiskOf(fs, times), h, fs.inodes);
    A.AccountingsAgree(DiskOf(fs, times), h, fs.inodes);
  }

  // ----- What commits leave behind

  predicate IsFlat(p: Path)
  {
    p.FlatGguf? || p.FlatSafetensors?
  }

  /** Every flat file is a second name of the standard file of its digest. */
  ghost predicate TreeHardLinked(fs: Fs)
  {
    forall p | p in fs.files && IsFlat(p) ::
      Standard(p.digest) in fs.files && fs.files[Standard(p.digest)] == fs.files[p]
  }

  lemma HardLinkedDisk(fs: Fs, times: Inode -> nat)
    requires Backed(fs)
    ensures TreeHardLinked(fs) <==> A.HardLinked(DiskOf(fs, times))
  {
    var disk := DiskOf(fs, times);
    forall p | p in fs.files && IsFlat(p)
      ensures NameOf(p) in disk.cas && disk.cas[NameOf(p)] == FileAt(fs, times, p) && !NameOf(p).Other?
      ensures NameOf(p).digest == p.digest
    {
    }
    forall d ensures d in disk.standard <==> Standard(d) in fs.files {
    }
    forall n | n in disk.cas && !n.Other? && TreeHardLinked(fs)
      ensures n.digest in disk.standard && disk.standard[n.digest].ino == disk.cas[n].ino
    {
      var p :| p in fs.files && IsFlat(p) && NameOf(p) == n;
    }
    forall p | p in fs.files && IsFlat(p) && A.HardLinked(disk)
      ensures Standard(p.digest) in fs.files && fs.files[Standard(p.digest)] == fs.files[p]
    {
      assert NameOf(p) in disk.cas;
    }
  }

  function OtherFlat(format: Format, d: Digest): Path
  {
    if format.Safetensors? then FlatGguf(d) else FlatSafetensors(d)
  }

  /** A commit keeps a hard-linked store hard-linked exactly when the digest has no flat file of the
      other format: that one stays with the inode the standard name has just left. */
  lemma CommitHardLinks(h: Hash, fs: Fs, stage: Path, format: Format, content: seq<byte>, times: Inode -> nat)
    requires TreeOk(h, fs) && stage.Stage? && Holds(fs, stage, content) && TreeHardLinked(fs)
    ensures var fs' := Committed(fs, stage, format, h(content));
            && Backed(fs')
            && (A.HardLinked(DiskOf(fs', times)) <==> OtherFlat(format, h(content)) !in fs.files)
  {
    var d := h(content);
    var fs' := Committed(fs, stage, format, d);
    CommitOutcome(h, fs, stage, format, content);
    HardLinkedDisk(fs', times);
    CommittedNames(h, fs, stage, format, content);
  }

  lemma CommittedNames(h: Hash, fs: Fs, stage: Path, format: Format, content: seq<byte>)
    requires TreeOk(h, fs) && stage.Stage? && Holds(fs, stage, content) && TreeHardLinked(fs)
    ensures TreeHardLinked(Committed(fs, stage, format, h(content))) <==> OtherFlat(format, h(content)) !in fs.files
  {
    var d := h(content);
    var fs' := Committed(fs, stage, format, d);
    var other := OtherFlat(format, d);
    assert fs'.files[Standard(d)] == fs.files[stage] && fs'.files[Flat(format, d)] == fs.files[stage];
    if other in fs.files {
      assert fs'.files[other] == fs.files[other] != fs.files[stage];
    } else {
      forall p | p in fs'.files && IsFlat(p)
        ensures Standard(p.digest) in fs'.files && fs'.files[Standard(p.digest)] == fs'.files[p]
      {
        if p.digest != d {
          assert p in fs.files && fs'.files[p] == fs.files[p];
          assert fs'.files[Standard(p.digest)] == fs.files[Standard(p.digest)];
        }
      }
    }
  }
}
