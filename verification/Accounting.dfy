/** Two accountings of one store: the statistics count each inode once, prune counts each
    digest once. Content addressing is what makes them agree. */
module Accounting {
  import opened Bytes
  import opened CasNames
  import opened Sums
  import opened Prune
  import opened Eviction
  import opened Listings

  /** The files the statistics look at: everything standard, and the flat files of `cas`. */
  ghost predicate IsStored(disk: Disk, f: File)
  {
    || (exists d :: d in disk.standard && disk.standard[d] == f)
    || (exists n :: n in disk.cas && !n.Other? && disk.cas[n] == f)
  }

  /** Content addressing of a disk: every stored file is as long as its inode's content, and that
      content hashes to the digest in its name. */
  ghost predicate Addressed(disk: Disk, h: seq<byte> -> string, content: map<nat, seq<byte>>)
  {
    && (forall d | d in disk.standard :: Named(disk.standard[d], d, h, content))
    && (forall n | n in disk.cas && !n.Other? :: Named(disk.cas[n], n.digest, h, content))
  }

  ghost predicate Named(f: File, d: string, h: seq<byte> -> string, content: map<nat, seq<byte>>)
  {
    f.ino in content && f.size == |content[f.ino]| && h(content[f.ino]) == d
  }

  /** The inodes of a list of files, each with its size. */
  function InodesOf(fs: seq<File>): map<nat, nat>
  {
    if fs == [] then map[] else InodesOf(fs[..|fs| - 1])[fs[|fs| - 1].ino := fs[|fs| - 1].size]
  }

  /** Names of one inode are of one size. */
  ghost predicate OneSize(disk: Disk)
  {
    forall f, g | IsStored(disk, f) && IsStored(disk, g) && f.ino == g.ino :: f.size == g.size
  }

  ghost function StoredInodes(disk: Disk): set<nat>
  {
    (set d | d in disk.standard :: disk.standard[d].ino) + (set n | n in disk.cas && !n.Other? :: disk.cas[n].ino)
  }

  lemma StoredInode(disk: Disk, i: nat)
    ensures i in StoredInodes(disk) <==> exists f :: IsStored(disk, f) && f.ino == i
  {
    if f :| IsStored(disk, f) && f.ino == i {
      if d :| d in disk.standard && disk.standard[d] == f {
        assert disk.standard[d].ino in StoredInodes(disk);
      }
    }
    if d :| d in disk.standard && disk.standard[d].ino == i {
      assert IsStored(disk, disk.standard[d]);
    }
    if n :| n in disk.cas && !n.Other? && disk.cas[n].ino == i {
      assert IsStored(disk, disk.cas[n]);
    }
  }

  /** The stored inodes are those of the standard files and of the flat files of both formats, and of no
      other file. */
  lemma StoredExactly(disk: Disk, i: nat)
    ensures i in StoredInodes(disk) <==>
            || (exists d :: d in disk.standard && disk.standard[d].ino == i)
            || (exists d :: Gguf(d) in disk.cas && disk.cas[Gguf(d)].ino == i)
            || (exists d :: Safetensors(d) in disk.cas && disk.cas[Safetensors(d)].ino == i)
  {
    forall n | n in disk.cas && !n.Other?
      ensures n == Gguf(n.digest) || n == Safetensors(n.digest)
    {
    }
  }

  /** The size of a stored inode, by any of its names. */
  ghost function SizeAt(disk: Disk, i: nat): nat
    requires i in StoredInodes(disk)
  {
    StoredInode(disk, i);
    var f :| IsStored(disk, f) && f.ino == i;
    f.size
  }

  /** The stored inodes with their sizes. */
  ghost function InodeSizes(disk: Disk): map<nat, nat>
  {
    map i | i in StoredInodes(disk) :: SizeAt(disk, i)
  }

  lemma SizeOfStored(disk: Disk, f: File)
    requires OneSize(disk) && IsStored(disk, f)
    ensures f.ino in InodeSizes(disk) && InodeSizes(disk)[f.ino] == f.size
  {
    StoredInode(disk, f.ino);
  }

  lemma StoredNamed(disk: Disk, h: seq<byte> -> string, content: map<nat, seq<byte>>, f: File)
    requires Addressed(disk, h, content) && IsStored(disk, f)
    ensures f.ino in content && f.size == |content[f.ino]|
  {
    if d :| d in disk.standard && disk.standard[d] == f {
    } else {
      var n :| n in disk.cas && !n.Other? && disk.cas[n] == f;
    }
  }

  /** In an addressed store every inode has one size. */
  lemma AddressedOneSize(disk: Disk, h: seq<byte> -> string, content: map<nat, seq<byte>>)
    requires Addressed(disk, h, content)
    ensures OneSize(disk)
  {
    forall f, g | IsStored(disk, f) && IsStored(disk, g) && f.ino == g.ino ensures f.size == g.size {
      StoredNamed(disk, h, content, f);
      StoredNamed(disk, h, content, g);
    }
  }

  lemma CountedIsStored(disk: Disk, d: string)
    requires d in Counted(disk)
    ensures IsStored(disk, Counted(disk)[d])
  {
    if d !in disk.standard {
      assert Gguf(d) in disk.cas && disk.cas[Gguf(d)] == Counted(disk)[d];
    }
  }

  lemma CountedIsNamed(disk: Disk, h: seq<byte> -> string, content: map<nat, seq<byte>>, d: string)
    requires Addressed(disk, h, content) && d in Counted(disk)
    ensures Named(Counted(disk)[d], d, h, content)
  {
  }

  /** The inodes of the files prune counts. */
  ghost function CountedInodes(disk: Disk): map<string, nat>
  {
    map d | d in Counted(disk) :: Counted(disk)[d].ino
  }

  /** The two totals differ by exactly the inodes that stand for no counted file: second copies
      of a digest, and safetensors-only blobs. */
  lemma StatsExceedPrune(disk: Disk, h: seq<byte> -> string, content: map<nat, seq<byte>>)
    requires Addressed(disk, h, content)
    ensures var inodes := InodeSizes(disk);
            Total(inodes) == CountedTotal(disk) + Total(inodes - CountedInodes(disk).Values)
  {
    var inodes, f := InodeSizes(disk), CountedInodes(disk);
    var counted := map i | i in inodes && i in f.Values :: inodes[i];
    AddressedOneSize(disk, h, content);
    forall d | d in f ensures f[d] in counted && counted[f[d]] == Sizes(Counted(disk))[d] {
      CountedIsStored(disk, d);
      SizeOfStored(disk, Counted(disk)[d]);
      assert f[d] in f.Values;
    }
    forall d, e | d in f && e in f && f[d] == f[e] ensures d == e {
      CountedIsNamed(disk, h, content, d);
      CountedIsNamed(disk, h, content, e);
    }
    assert counted.Keys == f.Values;
    TotalSplit(inodes, f.Values);
    TotalImage(Sizes(Counted(disk)), f, counted);
  }

  /** They agree exactly when every uncounted inode is empty. */
  lemma AccountingsAgree(disk: Disk, h: seq<byte> -> string, content: map<nat, seq<byte>>)
    requires Addressed(disk, h, content)
    ensures var inodes := InodeSizes(disk);
            Total(inodes) == CountedTotal(disk)
            <==> forall i | i in inodes && i !in CountedInodes(disk).Values :: inodes[i] == 0
  {
    StatsExceedPrune(disk, h, content);
    TotalZero(InodeSizes(disk) - CountedInodes(disk).Values);
    var inodes, used := InodeSizes(disk), CountedInodes(disk).Values;
    assert forall i :: (i in inodes - used) == (i in inodes && i !in used);
  }

  /** Every flat file is a second name of the standard file of its digest, as a commit leaves it. */
  ghost predicate HardLinked(disk: Disk)
  {
    forall n | n in disk.cas && !n.Other? :: n.digest in disk.standard && disk.standard[n.digest].ino == disk.cas[n].ino
  }

  /** In particular they agree when every flat file shares its inode with a standard one. */
  lemma HardLinksAgree(disk: Disk, h: seq<byte> -> string, content: map<nat, seq<byte>>)
    requires Addressed(disk, h, content) && HardLinked(disk)
    ensures Total(InodeSizes(disk)) == CountedTotal(disk)
  {
    AccountingsAgree(disk, h, content);
    forall i | i in InodeSizes(disk) ensures i in CountedInodes(disk).Values {
      StoredInode(disk, i);
      var f :| IsStored(disk, f) && f.ino == i;
      StandardInode(disk, f);
    }
  }

  lemma StandardInode(disk: Disk, f: File)
    requires HardLinked(disk) && IsStored(disk, f)
    ensures f.ino in CountedInodes(disk).Values
  {
    var d: string;
    if d' :| d' in disk.standard && disk.standard[d'] == f {
      d := d';
    } else {
      var n :| n in disk.cas && !n.Other? && disk.cas[n] == f;
      d := n.digest;
    }
    assert d in CountedInodes(disk) && CountedInodes(disk)[d] == f.ino;
  }

  // ----- The statistics as they run

  /** Some listed file has inode `i`. */
  lemma {:induction false} InodesOfKeys(fs: seq<File>)
    ensures forall i :: i in InodesOf(fs) <==> exists k | 0 <= k < |fs| :: fs[k].ino == i
    decreases |fs|
  {
    if fs != [] {
      var init, last := fs[..|fs| - 1], fs[|fs| - 1];
      InodesOfKeys(init);
      forall i ensures i in InodesOf(fs) <==> exists k | 0 <= k < |fs| :: fs[k].ino == i {
        if i in InodesOf(init) {
          var k :| 0 <= k < |init| && init[k].ino == i;
          assert fs[k].ino == i;
        }
        assert fs[|fs| - 1].ino == last.ino;
        if k :| 0 <= k < |fs| && fs[k].ino == i {
          assert k == |fs| - 1 || init[k].ino == i;
        }
      }
    }
  }

  /** Same inode, same size. */
  ghost predicate Consistent(fs: seq<File>)
  {
    forall i, j | 0 <= i < |fs| && 0 <= j < |fs| :: fs[i].ino == fs[j].ino ==> fs[i].size == fs[j].size
  }

  lemma {:induction false} InodesOfSizes(fs: seq<File>)
    requires Consistent(fs)
    ensures forall k | 0 <= k < |fs| :: fs[k].ino in InodesOf(fs) && InodesOf(fs)[fs[k].ino] == fs[k].size
    decreases |fs|
  {
    if fs != [] {
      InodesOfSizes(fs[..|fs| - 1]);
    }
  }

  /** One more file adds its size unless its inode was seen. */
  lemma InodesStep(fs: seq<File>, f: File)
    requires Consistent(fs + [f])
    ensures InodesOf(fs + [f]) == InodesOf(fs)[f.ino := f.size]
    ensures f.ino in InodesOf(fs) ==> InodesOf(fs + [f]) == InodesOf(fs)
    ensures f.ino !in InodesOf(fs) ==> Total(InodesOf(fs + [f])) == Total(InodesOf(fs)) + f.size
  {
    var fs' := fs + [f];
    assert fs'[..|fs|] == fs;
    InodesOfKeys(fs);
    assert Consistent(fs) by {
      assert forall i | 0 <= i < |fs| :: fs'[i] == fs[i];
    }
    InodesOfSizes(fs);
    if f.ino in InodesOf(fs) {
      var k :| 0 <= k < |fs| && fs[k].ino == f.ino;
      assert fs'[k] == fs[k] && fs'[|fs|] == f;
    } else {
      TotalWith(InodesOf(fs), f.ino, f.size);
    }
  }

  /** Adds up the sizes of files, skipping inodes already visited. */
  method Sum(files: seq<File>) returns (total: nat, count: nat)
    requires Consistent(files)
    ensures total == Total(InodesOf(files)) && count == |InodesOf(files)|
  {
    total, count := 0, 0;
    var visited: set<nat> := {};
    for i := 0 to |files|
      invariant visited == InodesOf(files[..i]).Keys
      invariant total == Total(InodesOf(files[..i])) && count == |InodesOf(files[..i])|
    {
      assert files[..i + 1] == files[..i] + [files[i]];
      assert Consistent(files[..i] + [files[i]]);
      InodesStep(files[..i], files[i]);
      if files[i].ino !in visited {
        visited := visited + {files[i].ino};
        total := total + files[i].size;
        count := count + 1;
      }
    }
    assert files[..|files|] == files;
  }

  /** The files in the order the statistics visit them: standard files, then the flat files of either format. */
  method Visit(dirs: BlobDirs, blobNames: seq<string>, casNames: seq<CasName>) returns (files: seq<File>)
    requires forall i | 0 <= i < |blobNames| :: blobNames[i] in dirs.standard
    requires forall i | 0 <= i < |casNames| :: casNames[i] in dirs.cas
    ensures files == StandardFiles(dirs.standard, blobNames) + FlatFiles(dirs.cas, casNames)
  {
    files := [];
    for i := 0 to |blobNames|
      invariant files == StandardFiles(dirs.standard, blobNames[..i])
    {
      assert blobNames[..i + 1][..i] == blobNames[..i];
      files := files + [dirs.standard[blobNames[i]]];
    }
    assert blobNames[..|blobNames|] == blobNames;
    for i := 0 to |casNames|
      invariant files == StandardFiles(dirs.standard, blobNames) + FlatFiles(dirs.cas, casNames[..i])
    {
      assert casNames[..i + 1][..i] == casNames[..i];
      if !casNames[i].Other? {
        files := files + [dirs.cas[casNames[i]]];
      }
    }
    assert casNames[..|casNames|] == casNames;
  }

  /** The statistics of a disk count every inode that some stored name leads to once. */
  method StorageStats(dirs: BlobDirs, blobNames: seq<string>, casNames: seq<CasName>) returns (total: nat, count: nat)
    requires Listing(blobNames, dirs.standard.Keys) && Listing(casNames, dirs.cas.Keys)
    requires OneSize(dirs.Content())
    ensures total == Total(InodeSizes(dirs.Content())) && count == |StoredInodes(dirs.Content())|
  {
    InListing(blobNames, dirs.standard.Keys);
    InListing(casNames, dirs.cas.Keys);
    var files := Visit(dirs, blobNames, casNames);
    VisitedInodes(dirs.Content(), blobNames, casNames);
    total, count := Sum(files);
    assert InodeSizes(dirs.Content()).Keys == StoredInodes(dirs.Content());
  }

  function StandardFiles(standard: map<string, File>, names: seq<string>): seq<File>
    requires forall i | 0 <= i < |names| :: names[i] in standard
  {
    if names == [] then [] else StandardFiles(standard, names[..|names| - 1]) + [standard[names[|names| - 1]]]
  }

  function FlatFiles(cas: map<CasName, File>, names: seq<CasName>): seq<File>
    requires forall i | 0 <= i < |names| :: names[i] in cas
  {
    if names == [] then []
    else FlatFiles(cas, names[..|names| - 1]) + (if names[|names| - 1].Other? then [] else [cas[names[|names| - 1]]])
  }

  lemma {:induction false} StandardFilesAre(standard: map<string, File>, names: seq<string>)
    requires forall i | 0 <= i < |names| :: names[i] in standard
    ensures forall f :: f in StandardFiles(standard, names) <==> exists i | 0 <= i < |names| :: standard[names[i]] == f
    decreases |names|
  {
    if names != [] {
      var init := names[..|names| - 1];
      StandardFilesAre(standard, init);
      forall f ensures f in StandardFiles(standard, names) <==> exists i | 0 <= i < |names| :: standard[names[i]] == f {
        if i :| 0 <= i < |init| && standard[init[i]] == f {
          assert standard[names[i]] == f;
        }
        if i :| 0 <= i < |names| && standard[names[i]] == f {
          assert i == |names| - 1 || standard[init[i]] == f;
        }
      }
    }
  }

  lemma {:induction false} FlatFilesAre(cas: map<CasName, File>, names: seq<CasName>)
    requires forall i | 0 <= i < |names| :: names[i] in cas
    ensures forall f :: f in FlatFiles(cas, names)
              <==> exists i | 0 <= i < |names| :: !names[i].Other? && cas[names[i]] == f
    decreases |names|
  {
    if names != [] {
      var init := names[..|names| - 1];
      FlatFilesAre(cas, init);
      forall f
        ensures f in FlatFiles(cas, names)
                <==> exists i | 0 <= i < |names| :: !names[i].Other? && cas[names[i]] == f
      {
        if i :| 0 <= i < |init| && !init[i].Other? && cas[init[i]] == f {
          assert !names[i].Other? && cas[names[i]] == f;
        }
        if i :| 0 <= i < |names| && !names[i].Other? && cas[names[i]] == f {
          assert i == |names| - 1 || (!init[i].Other? && cas[init[i]] == f);
        }
      }
    }
  }

  /** The loops visit exactly the stored files. */
  lemma VisitedAreStored(disk: Disk, blobNames: seq<string>, casNames: seq<CasName>)
    requires Listing(blobNames, disk.standard.Keys) && Listing(casNames, disk.cas.Keys)
    requires forall i | 0 <= i < |blobNames| :: blobNames[i] in disk.standard
    requires forall i | 0 <= i < |casNames| :: casNames[i] in disk.cas
    ensures forall f :: f in StandardFiles(disk.standard, blobNames) + FlatFiles(disk.cas, casNames)
              <==> IsStored(disk, f)
  {
    StandardFilesAre(disk.standard, blobNames);
    FlatFilesAre(disk.cas, casNames);
    forall f | IsStored(disk, f) ensures f in StandardFiles(disk.standard, blobNames) + FlatFiles(disk.cas, casNames) {
      if d :| d in disk.standard && disk.standard[d] == f {
        assert d in set n | n in blobNames;
      } else {
        var n :| n in disk.cas && !n.Other? && disk.cas[n] == f;
        assert n in set m | m in casNames;
      }
    }
  }

  lemma StoredAreConsistent(disk: Disk, files: seq<File>)
    requires OneSize(disk) && forall f :: f in files <==> IsStored(disk, f)
    ensures Consistent(files)
  {
    forall k | 0 <= k < |files| ensures IsStored(disk, files[k]) {
      assert files[k] in files;
    }
  }

  lemma InodeListed(disk: Disk, files: seq<File>, i: nat)
    requires forall f :: f in files <==> IsStored(disk, f)
    ensures i in InodesOf(files) <==> i in StoredInodes(disk)
  {
    InodesOfKeys(files);
    StoredInode(disk, i);
    if i in InodesOf(files) {
      var k :| 0 <= k < |files| && files[k].ino == i;
      assert files[k] in files;
    }
    if f :| IsStored(disk, f) && f.ino == i {
      assert f in files;
    }
  }

  lemma InodeListedSize(disk: Disk, files: seq<File>, i: nat)
    requires OneSize(disk) && Consistent(files) && forall f :: f in files <==> IsStored(disk, f)
    requires i in InodesOf(files)
    ensures i in InodeSizes(disk) && InodesOf(files)[i] == InodeSizes(disk)[i]
  {
    InodesOfKeys(files);
    InodesOfSizes(files);
    var k :| 0 <= k < |files| && files[k].ino == i;
    assert files[k] in files;
    SizeOfStored(disk, files[k]);
  }

  lemma InodesOfStored(disk: Disk, files: seq<File>)
    requires OneSize(disk) && Consistent(files) && forall f :: f in files <==> IsStored(disk, f)
    ensures InodesOf(files) == InodeSizes(disk)
  {
    forall i ensures i in InodesOf(files) <==> i in InodeSizes(disk) {
      InodeListed(disk, files, i);
    }
    forall i | i in InodesOf(files) ensures InodesOf(files)[i] == InodeSizes(disk)[i] {
      InodeListedSize(disk, files, i);
    }
  }

  lemma VisitedInodes(disk: Disk, blobNames: seq<string>, casNames: seq<CasName>)
    requires OneSize(disk)
    requires Listing(blobNames, disk.standard.Keys) && Listing(casNames, disk.cas.Keys)
    requires forall i | 0 <= i < |blobNames| :: blobNames[i] in disk.standard
    requires forall i | 0 <= i < |casNames| :: casNames[i] in disk.cas
    ensures var files := StandardFiles(disk.standard, blobNames) + FlatFiles(disk.cas, casNames);
            Consistent(files) && InodesOf(files) == InodeSizes(disk)
  {
    var files := StandardFiles(disk.standard, blobNames) + FlatFiles(disk.cas, casNames);
    VisitedAreStored(disk, blobNames, casNames);
    StoredAreConsistent(disk, files);
    InodesOfStored(disk, files);
  }
}
