/** The eviction manager as it runs: pins as files of a directory, and the prune loops. */
module Eviction {
  import opened Wrappers
  import opened Bytes
  import opened Strings
  import opened Digests
  import opened Sorting
  import opened CasNames
  import opened Prune
  import opened Lexicographic
  import opened Listings

  datatype Invalid = InvalidFormat(digest: string)

  class BlobDirs {
    var standard: map<string, File>
    var cas: map<CasName, File>

    constructor ()
      ensures Content() == Disk(map[], map[])
    {
      standard, cas := map[], map[];
    }

    ghost function Content(): Disk
      reads this
    {
      Disk(standard, cas)
    }

    /** Removes the standard and the flat GGUF file of a digest; says whether there was any. */
    method Remove(digest: string) returns (removed: bool)
      modifies this
      ensures removed <==> HasFile(old(Content()), digest)
      ensures Content() == Disk(old(standard) - {digest}, old(cas) - {Gguf(digest)})
    {
      var r1 := digest in standard;
      var r2 := Gguf(digest) in cas;
      standard := standard - {digest};
      cas := cas - {Gguf(digest)};
      removed := r1 || r2;
    }
  }

  lemma ListsSnoc(bs: seq<Blob>, counted: map<string, File>, d: string, f: File)
    requires Lists(bs, counted) && d !in counted
    ensures Lists(bs + [Blob(d, f)], counted[d := f])
    ensures SumSizes(bs + [Blob(d, f)]) == SumSizes(bs) + f.size
  {
    var bs' := bs + [Blob(d, f)];
    forall i | 0 <= i < |bs| ensures bs[i].digest != d {
      assert bs[i] in bs;
    }
    assert bs'[|bs|] == Blob(d, f);
    assert forall e | e in counted :: Blob(e, counted[e]) in bs && Blob(e, counted[e]) in bs';
    SumSnoc(bs, Blob(d, f));
  }

  lemma {:induction false} SumSnoc(bs: seq<Blob>, b: Blob)
    ensures SumSizes(bs + [b]) == SumSizes(bs) + b.file.size
    decreases |bs|
  {
    if bs == [] {
      assert ([] + [b])[1..] == [];
    } else {
      SumSnoc(bs[1..], b);
      assert (bs + [b])[1..] == bs[1..] + [b];
    }
  }

  class EvictionManager {
    var pinned: set<string>

    constructor ()
      ensures pinned == {}
    {
      pinned := {};
    }

    method Pin(digest: string) returns (r: Result<(), Invalid>)
      modifies this
      ensures r == if IsDigest(Trim(digest)) then Ok(()) else Err(InvalidFormat(digest))
      ensures pinned == if r.Ok? then old(pinned) + {Trim(digest)} else old(pinned)
    {
      if !IsDigest(Trim(digest)) {
        return Err(InvalidFormat(digest));
      }
      pinned := pinned + {Trim(digest)};
      return Ok(());
    }

    method Unpin(digest: string) returns (r: Result<bool, Invalid>)
      modifies this
      ensures r == if IsDigest(Trim(digest)) then Ok(Trim(digest) in old(pinned)) else Err(InvalidFormat(digest))
      ensures pinned == if r.Ok? then old(pinned) - {Trim(digest)} else old(pinned)
    {
      if !IsDigest(Trim(digest)) {
        return Err(InvalidFormat(digest));
      }
      if Trim(digest) in pinned {
        pinned := pinned - {Trim(digest)};
        return Ok(true);
      }
      return Ok(false);
    }

    /** The pinned digests in ascending order, for some listing of the directory of pins. */
    method ListPinned(names: seq<string>) returns (r: seq<string>)
      requires Listing(names, pinned)
      ensures r == Sort(names, Le) && Listing(r, pinned) && Sorted(r, Le)
    {
      var found: seq<string> := [];
      for i := 0 to |names|
        invariant found == names[..i]
      {
        found := found + [names[i]];
      }
      assert found == names;
      SortedListing(names, pinned);
      r := Sort(found, Le);
    }

    /** Lists the standard files. */
    method ScanStandard(dirs: BlobDirs, names: seq<string>) returns (blobs: seq<Blob>, total: nat)
      requires Listing(names, dirs.standard.Keys)
      ensures Lists(blobs, dirs.standard) && total == SumSizes(blobs)
    {
      InListing(names, dirs.standard.Keys);
      blobs, total := [], 0;
      for i := 0 to |names|
        invariant blobs == StandardScan(dirs.standard, names[..i]) && total == SumSizes(blobs)
      {
        var name := names[i];
        assert names[..i + 1][..i] == names[..i];
        SumSnoc(blobs, Blob(name, dirs.standard[name]));
        total := total + dirs.standard[name].size;
        blobs := blobs + [Blob(name, dirs.standard[name])];
      }
      StandardScanLists(dirs.standard, names);
      assert names[..|names|] == names;
    }

    /** Adds the flat GGUF files whose digest has not been listed yet. */
    method ScanFlat(dirs: BlobDirs, names: seq<CasName>, listed: seq<Blob>) returns (blobs: seq<Blob>, total: nat)
      requires Listing(names, dirs.cas.Keys) && Lists(listed, dirs.standard)
      ensures Lists(blobs, Counted(dirs.Content())) && total == SumSizes(blobs)
      ensures StandardFirst(blobs, dirs.standard.Keys)
    {
      InListing(names, dirs.cas.Keys);
      blobs, total := listed, SumSizes(listed);
      for i := 0 to |names|
        invariant blobs == FlatScan(listed, dirs.cas, names[..i]) && total == SumSizes(blobs)
      {
        var name := names[i];
        assert names[..i + 1][..i] == names[..i];
        if name.Gguf? && !exists b | b in blobs :: b.digest == name.digest {
          SumSnoc(blobs, Blob(name.digest, dirs.cas[name]));
          total := total + dirs.cas[name].size;
          blobs := blobs + [Blob(name.digest, dirs.cas[name])];
        }
      }
      FlatScanLists(listed, dirs.standard, dirs.cas, names);
      FlatScanOrder(listed, dirs.standard, dirs.cas, names);
      assert names[..|names|] == names;
      SeenAll(dirs.cas, names);
    }

    /** Removes unpinned blobs of a sorted list, oldest first, until the total fits. */
    method EvictAll(dirs: BlobDirs, sorted: seq<Blob>, total: nat, max: nat) returns (reclaimed: nat)
      requires Distinct(sorted) && SumSizes(sorted) <= total
      requires forall k | 0 <= k < |sorted| :: HasFile(dirs.Content(), sorted[k].digest)
      modifies dirs
      ensures var gone := Evict(sorted, total, max, PinTest(pinned));
              dirs.Content() == Removed(old(dirs.Content()), DigestsOf(gone)) && reclaimed == SumSizes(gone)
    {
      ghost var disk, spare, whole := dirs.Content(), PinTest(pinned), Evict(sorted, total, max, PinTest(pinned));
      ghost var gone: seq<Blob> := [];
      var currentTotal: nat := total;
      reclaimed := 0;
      var i := 0;
      RemovedNone(disk);
      while i < |sorted| && currentTotal > max
        invariant i <= |sorted| && SumSizes(sorted[i..]) <= currentTotal
        invariant gone + Evict(sorted[i..], currentTotal, max, spare) == whole
        invariant dirs.Content() == Removed(disk, DigestsOf(gone)) && reclaimed == SumSizes(gone)
        invariant forall k | i <= k < |sorted| :: sorted[k].digest !in DigestsOf(gone)
      {
        var blob := sorted[i];
        ghost var rest := sorted[i + 1..];
        assert sorted[i..][1..] == rest && sorted[i..][0] == blob;
        if !IsPinned(pinned, blob.digest) {
          StillThere(disk, DigestsOf(gone), blob.digest);
          RemovedSnoc(disk, gone, blob);
          var removed := dirs.Remove(blob.digest);
          if removed {
            currentTotal := SaturatingSub(currentTotal, blob.file.size);
            reclaimed := reclaimed + blob.file.size;
          }
          SumSnoc(gone, blob);
          EvictStep(gone, blob, Evict(rest, currentTotal, max, spare));
          gone := gone + [blob];
        }
        i := i + 1;
      }
      assert Evict(sorted[i..], currentTotal, max, spare) == [] && gone + [] == gone;
    }

    /** Scans, sorts by age and evicts. */
    method Prune(dirs: BlobDirs, blobNames: seq<string>, casNames: seq<CasName>, max: nat) returns (reclaimed: nat)
      requires Listing(blobNames, dirs.standard.Keys) && Listing(casNames, dirs.cas.Keys)
      modifies dirs
      ensures Pruned(old(dirs.Content()), pinned, max, dirs.Content(), reclaimed)
    {
      ghost var disk := dirs.Content();
      var standard, _ := ScanStandard(dirs, blobNames);
      var blobs, currentTotal := ScanFlat(dirs, casNames, standard);
      ListsSum(blobs, Counted(disk));
      SortLists(blobs, Counted(disk));
      var sorted := Sort(blobs, NoNewer);
      ListsSum(sorted, Counted(disk));
      if currentTotal <= max {
        RemovedNone(disk);
        assert Evict(sorted, currentTotal, max, PinTest(pinned)) == [];
        assert RanOn(blobs, disk, pinned, max, dirs.Content(), 0);
        return 0;
      }
      ListedHaveFiles(disk, sorted);
      reclaimed := EvictAll(dirs, sorted, currentTotal, max);
      assert RanOn(blobs, disk, pinned, max, dirs.Content(), reclaimed);
    }
  }

  /** The list built from the standard files named so far. */
  function StandardScan(standard: map<string, File>, names: seq<string>): seq<Blob>
    requires forall i | 0 <= i < |names| :: names[i] in standard
  {
    if names == [] then []
    else
      var last := names[|names| - 1];
      StandardScan(standard, names[..|names| - 1]) + [Blob(last, standard[last])]
  }

  lemma {:induction false} StandardScanCounts(standard: map<string, File>, names: seq<string>)
    requires forall i | 0 <= i < |names| :: names[i] in standard
    requires forall i, j | 0 <= i < j < |names| :: names[i] != names[j]
    ensures Lists(StandardScan(standard, names), Seen(standard, names))
    decreases |names|
  {
    if names != [] {
      var last, init := names[|names| - 1], names[..|names| - 1];
      StandardScanCounts(standard, init);
      ListsSnoc(StandardScan(standard, init), Seen(standard, init), last, standard[last]);
      assert names == init + [last];
      SeenNext(standard, init, last);
    }
  }

  lemma StandardScanLists(standard: map<string, File>, names: seq<string>)
    requires Listing(names, standard.Keys)
    ensures forall i | 0 <= i < |names| :: names[i] in standard
    ensures Lists(StandardScan(standard, names), standard)
  {
    InListing(names, standard.Keys);
    StandardScanCounts(standard, names);
    SeenAll(standard, names);
  }

  /** Adds a flat GGUF file unless its digest is listed. */
  function AddFlat(blobs: seq<Blob>, name: CasName, f: File): seq<Blob>
  {
    if name.Gguf? && !exists b | b in blobs :: b.digest == name.digest
    then blobs + [Blob(name.digest, f)] else blobs
  }

  /** The list after the flat files named so far. */
  function FlatScan(listed: seq<Blob>, cas: map<CasName, File>, names: seq<CasName>): seq<Blob>
    requires forall i | 0 <= i < |names| :: names[i] in cas
  {
    if names == [] then listed
    else
      var last := names[|names| - 1];
      AddFlat(FlatScan(listed, cas, names[..|names| - 1]), last, cas[last])
  }

  lemma {:induction false} FlatScanLists(listed: seq<Blob>, standard: map<string, File>, cas: map<CasName, File>,
      names: seq<CasName>)
    requires Lists(listed, standard) && forall i | 0 <= i < |names| :: names[i] in cas
    ensures Lists(FlatScan(listed, cas, names), Counted(Disk(standard, Seen(cas, names))))
    decreases |names|
  {
    if names == [] {
      assert Seen(cas, names) == map[];
      CountNone(standard);
    } else {
      var last, init := names[|names| - 1], names[..|names| - 1];
      var blobs, counted := FlatScan(listed, cas, init), Counted(Disk(standard, Seen(cas, init)));
      FlatScanLists(listed, standard, cas, init);
      assert Counted(Disk(standard, Seen(cas, names)))
          == if !last.Gguf? || last.digest in counted then counted else counted[last.digest := cas[last]] by {
        assert names == init + [last];
        SeenNext(cas, init, last);
        CountNext(standard, Seen(cas, init), last, cas[last]);
      }
      AddFlatLists(blobs, counted, last, cas[last]);
    }
  }

  lemma AddFlatLists(blobs: seq<Blob>, counted: map<string, File>, name: CasName, f: File)
    requires Lists(blobs, counted)
    ensures Lists(AddFlat(blobs, name, f),
                  if !name.Gguf? || name.digest in counted then counted else counted[name.digest := f])
  {
    if name.Gguf? {
      AnyListed(blobs, counted, name.digest);
      if name.digest !in counted {
        ListsSnoc(blobs, counted, name.digest, f);
      }
    }
  }

  /** The scan of `cas` only adds behind what the standard directory listed. */
  lemma {:induction false} FlatScanOrder(listed: seq<Blob>, standard: map<string, File>, cas: map<CasName, File>,
      names: seq<CasName>)
    requires Lists(listed, standard) && forall i | 0 <= i < |names| :: names[i] in cas
    ensures listed <= FlatScan(listed, cas, names)
    ensures StandardFirst(FlatScan(listed, cas, names), standard.Keys)
    decreases |names|
  {
    if names == [] {
      assert forall i | 0 <= i < |listed| :: listed[i] in listed;
    } else {
      var last, init := names[|names| - 1], names[..|names| - 1];
      var blobs := FlatScan(listed, cas, init);
      FlatScanOrder(listed, standard, cas, init);
      if last.Gguf? && last.digest in standard {
        assert Blob(last.digest, standard[last.digest]) in listed;
        assert Blob(last.digest, standard[last.digest]) in blobs;
      }
    }
  }

  predicate HasFile(disk: Disk, d: string)
  {
    d in disk.standard || Gguf(d) in disk.cas
  }

  lemma ListedHaveFiles(disk: Disk, bs: seq<Blob>)
    requires Lists(bs, Counted(disk))
    ensures Distinct(bs) && forall k | 0 <= k < |bs| :: HasFile(disk, bs[k].digest)
  {
    forall k | 0 <= k < |bs| ensures HasFile(disk, bs[k].digest) {
      assert bs[k] in bs;
    }
  }

  /** The part of a directory already listed. */
  ghost function Seen<N>(dir: map<N, File>, names: seq<N>): map<N, File>
  {
    map n | n in dir && n in names :: dir[n]
  }

  lemma SeenNext<N>(dir: map<N, File>, names: seq<N>, name: N)
    requires name in dir
    ensures Seen(dir, names + [name]) == Seen(dir, names)[name := dir[name]]
  {
  }

  lemma SeenAll<N>(dir: map<N, File>, names: seq<N>)
    requires Listing(names, dir.Keys)
    ensures Seen(dir, names) == dir
  {
    assert forall n | n in dir :: n in set name | name in names;
  }

  lemma CountNone(standard: map<string, File>)
    ensures Counted(Disk(standard, map[])) == standard
  {
    assert FlatDigests(map[]) == {};
  }

  /** Disks that name the same digests, and the same flat file where there is no standard one,
      are counted alike. */
  lemma CountedAlike(standard: map<string, File>, seen: map<CasName, File>, seen': map<CasName, File>)
    requires standard.Keys + FlatDigests(seen') == standard.Keys + FlatDigests(seen)
    requires forall d | d in FlatDigests(seen) && d !in standard ::
               Gguf(d) in seen && Gguf(d) in seen' && seen'[Gguf(d)] == seen[Gguf(d)]
    ensures Counted(Disk(standard, seen')) == Counted(Disk(standard, seen))
  {
  }

  lemma FlatDigestsNext(seen: map<CasName, File>, name: CasName, f: File)
    ensures FlatDigests(seen[name := f]) == FlatDigests(seen) + (if name.Gguf? then {name.digest} else {})
    ensures forall d :: d in FlatDigests(seen) <==> Gguf(d) in seen
  {
  }

  lemma CountNew(standard: map<string, File>, seen: map<CasName, File>, d: string, f: File)
    requires d !in Counted(Disk(standard, seen))
    ensures Counted(Disk(standard, seen[Gguf(d) := f])) == Counted(Disk(standard, seen))[d := f]
  {
    FlatDigestsNext(seen, Gguf(d), f);
  }

  /** One more file in `cas` counts one more digest, unless it is counted already. */
  lemma CountNext(standard: map<string, File>, seen: map<CasName, File>, name: CasName, f: File)
    requires name !in seen || seen[name] == f
    ensures var counted := Counted(Disk(standard, seen));
            Counted(Disk(standard, seen[name := f]))
            == if !name.Gguf? || name.digest in counted then counted else counted[name.digest := f]
  {
    FlatDigestsNext(seen, name, f);
    if name.Gguf? && name.digest !in Counted(Disk(standard, seen)) {
      CountNew(standard, seen, name.digest, f);
    } else {
      CountedAlike(standard, seen, seen[name := f]);
    }
  }

  lemma EvictStep(gone: seq<Blob>, b: Blob, rest: seq<Blob>)
    ensures gone + ([b] + rest) == gone + [b] + rest
  {
  }

  lemma AnyListed(bs: seq<Blob>, counted: map<string, File>, d: string)
    requires Lists(bs, counted)
    ensures (exists b | b in bs :: b.digest == d) <==> d in counted
  {
    if d in counted {
      assert Blob(d, counted[d]) in bs;
    }
  }

  /** A digest not yet removed still has its files. */
  lemma StillThere(disk: Disk, ds: set<string>, d: string)
    requires HasFile(disk, d) && d !in ds
    ensures HasFile(Removed(disk, ds), d)
  {
    RemovedSpares(disk, ds, d);
  }

  lemma RemovedSnoc(disk: Disk, gone: seq<Blob>, b: Blob)
    ensures var left := Removed(disk, DigestsOf(gone));
            Removed(disk, DigestsOf(gone + [b]))
            == Disk(left.standard - {b.digest}, left.cas - {Gguf(b.digest)})
  {
    assert DigestsOf(gone + [b]) == DigestsOf(gone) + {b.digest};
    assert FlatNames(DigestsOf(gone) + {b.digest}) == FlatNames(DigestsOf(gone)) + {Gguf(b.digest)};
  }
}
