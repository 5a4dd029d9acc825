/** Least-recently-used eviction: a two-directory scan, a stable sort by age, and a loop that
    removes unpinned blobs until the total fits the quota. */
module Prune {
  import opened Bytes
  import opened Digests
  import opened CasNames
  import opened Sums
  import opened Sorting

  datatype File = File(ino: nat, size: nat, mtime: nat)

  /** The files of `blobs/sha256` by digest, and those of `cas` by name. */
  datatype Disk = Disk(standard: map<string, File>, cas: map<CasName, File>)

  /** The digests with a flat GGUF file. */
  ghost function FlatDigests(cas: map<CasName, File>): set<string>
  {
    set name | name in cas && name.Gguf? :: name.digest
  }

  /** Each digest once, with the file that stands for it: the standard one when there is one. */
  ghost function Counted(disk: Disk): map<string, File>
  {
    map d | d in disk.standard.Keys + FlatDigests(disk.cas) ::
      if d in disk.standard then disk.standard[d] else disk.cas[Gguf(d)]
  }

  ghost function Sizes(counted: map<string, File>): map<string, nat>
  {
    map d | d in counted :: counted[d].size
  }

  /** The bytes prune counts. */
  ghost function CountedTotal(disk: Disk): nat
  {
    Total(Sizes(Counted(disk)))
  }

  datatype Blob = Blob(digest: string, file: File)

  function SumSizes(bs: seq<Blob>): nat
  {
    if bs == [] then 0 else bs[0].file.size + SumSizes(bs[1..])
  }

  function DigestsOf(bs: seq<Blob>): set<string>
  {
    set b | b in bs :: b.digest
  }

  ghost predicate Distinct(bs: seq<Blob>)
  {
    forall i, j | 0 <= i < j < |bs| :: bs[i].digest != bs[j].digest
  }

  /** A list of exactly the counted blobs, in some order. */
  ghost predicate Lists(bs: seq<Blob>, counted: map<string, File>)
  {
    && Distinct(bs)
    && (forall b | b in bs :: b.digest in counted && counted[b.digest] == b.file)
    && (forall d | d in counted :: Blob(d, counted[d]) in bs)
  }

  /** Digests of the standard directory are listed before those of flat files only. */
  ghost predicate StandardFirst(bs: seq<Blob>, standard: set<string>)
  {
    forall i, j | 0 <= i < j < |bs| :: bs[j].digest in standard ==> bs[i].digest in standard
  }

  predicate NoNewer(a: Blob, b: Blob)
  {
    a.file.mtime <= b.file.mtime
  }

  function PinTest(pinned: set<string>): string -> bool
  {
    digest => IsPinned(pinned, digest)
  }

  /** The blobs the loop removes from a list, in order, sparing the pinned ones. */
  function Evict(bs: seq<Blob>, total: nat, max: nat, spare: string -> bool): seq<Blob>
    decreases |bs|
  {
    if bs == [] || total <= max then []
    else if spare(bs[0].digest) then Evict(bs[1..], total, max, spare)
    else
      [bs[0]] + Evict(bs[1..], SaturatingSub(total, bs[0].file.size), max, spare)
  }

  function FlatNames(ds: set<string>): set<CasName>
  {
    set d | d in ds :: Gguf(d)
  }

  /** The disk without either file of the given digests. */
  function Removed(disk: Disk, ds: set<string>): Disk
  {
    Disk(disk.standard - ds, disk.cas - FlatNames(ds))
  }

  /** The blobs removed by a run that has listed the counted blobs as `bs`. */
  ghost function Gone(counted: map<string, File>, bs: seq<Blob>, max: nat, spare: string -> bool): seq<Blob>
  {
    Evict(Sort(bs, NoNewer), Total(Sizes(counted)), max, spare)
  }

  /** One run of prune that has listed `bs`: the standard directory first, then `cas`. */
  ghost predicate RanOn(bs: seq<Blob>, disk: Disk, pinned: set<string>, max: nat, disk': Disk, reclaimed: nat)
  {
    var gone := Gone(Counted(disk), bs, max, PinTest(pinned));
    && Lists(bs, Counted(disk)) && StandardFirst(bs, disk.standard.Keys)
    && disk' == Removed(disk, DigestsOf(gone)) && reclaimed == SumSizes(gone)
  }

  /** One run of prune, for some order within each of the two directories. */
  ghost predicate Pruned(disk: Disk, pinned: set<string>, max: nat, disk': Disk, reclaimed: nat)
  {
    exists bs :: RanOn(bs, disk, pinned, max, disk', reclaimed)
  }

  // ----- Lists of blobs

  lemma NoNewerIsPreorder()
    ensures TotalPreorder(NoNewer)
  {
  }

  lemma ListsRest(bs: seq<Blob>, counted: map<string, File>)
    requires Lists(bs, counted) && bs != []
    ensures bs[0].digest in counted && counted[bs[0].digest] == bs[0].file
    ensures Lists(bs[1..], counted - {bs[0].digest})
  {
    var rest := counted - {bs[0].digest};
    assert bs[0] in bs;
    forall b | b in bs[1..] ensures b.digest in rest && rest[b.digest] == b.file {
      assert b in bs;
    }
    forall e | e in rest ensures Blob(e, rest[e]) in bs[1..] {
      var i :| 0 <= i < |bs| && bs[i] == Blob(e, counted[e]);
      assert bs[1..][i - 1] == bs[i];
    }
  }

  lemma SizesWithout(counted: map<string, File>, d: string)
    requires d in counted
    ensures Total(Sizes(counted)) == counted[d].size + Total(Sizes(counted - {d}))
  {
    TotalWithout(Sizes(counted), d);
    assert Sizes(counted) - {d} == Sizes(counted - {d});
  }

  lemma {:induction false} ListsSum(bs: seq<Blob>, counted: map<string, File>)
    requires Lists(bs, counted)
    ensures SumSizes(bs) == Total(Sizes(counted))
    decreases |bs|
  {
    if bs == [] {
      assert Sizes(counted) == map[];
    } else {
      ListsRest(bs, counted);
      ListsSum(bs[1..], counted - {bs[0].digest});
      SizesWithout(counted, bs[0].digest);
    }
  }

  /** Rearranging a list keeps what it lists. */
  lemma ListsPermuted(a: seq<Blob>, b: seq<Blob>, counted: map<string, File>)
    requires Lists(a, counted) && multiset(a) == multiset(b)
    ensures Lists(b, counted)
  {
    forall x: Blob ensures x in a <==> x in b {
      assert x in a <==> x in multiset(a);
      assert x in b <==> x in multiset(b);
    }
    DistinctCounts(a);
    forall i, j | 0 <= i < j < |b| ensures b[i] != b[j] {
      assert b == b[..i] + [b[i]] + b[i + 1..j] + [b[j]] + b[j + 1..];
      assert multiset(b)[b[i]] <= 1;
    }
  }

  lemma {:induction false} DistinctCounts(a: seq<Blob>)
    requires Distinct(a)
    ensures forall x :: multiset(a)[x] <= 1
    decreases |a|
  {
    if a != [] {
      DistinctCounts(a[1..]);
      assert a == [a[0]] + a[1..];
      assert a[0] !in a[1..];
    }
  }

  lemma SortLists(bs: seq<Blob>, counted: map<string, File>)
    requires Lists(bs, counted)
    ensures Lists(Sort(bs, NoNewer), counted) && Sorted(Sort(bs, NoNewer), NoNewer)
  {
    NoNewerIsPreorder();
    SortElements(bs, NoNewer);
    SortSorts(bs, NoNewer);
    ListsPermuted(bs, Sort(bs, NoNewer), counted);
  }

  // ----- The eviction loop

  ghost predicate Unpinned(spare: string -> bool, b: Blob)
  {
    !spare(b.digest)
  }

  /** The loop takes unpinned blobs of the list, never more than there are bytes. */
  lemma {:induction false} EvictTakes(bs: seq<Blob>, total: nat, max: nat, spare: string -> bool)
    requires SumSizes(bs) <= total
    ensures var gone := Evict(bs, total, max, spare);
            && SumSizes(gone) <= SumSizes(bs)
            && forall b | b in gone :: b in bs && Unpinned(spare, b)
    decreases |bs|
  {
    if bs != [] && total > max {
      if spare(bs[0].digest) {
        EvictTakes(bs[1..], total, max, spare);
      } else {
        EvictTakes(bs[1..], total - bs[0].file.size, max, spare);
      }
    }
  }

  /** The loop stops as soon as the rest fits, or when everything left is pinned. */
  lemma {:induction false} EvictMeetsQuota(bs: seq<Blob>, total: nat, max: nat, spare: string -> bool)
    requires SumSizes(bs) <= total
    ensures var gone := Evict(bs, total, max, spare);
            total - SumSizes(gone) <= max || forall b | b in bs :: b in gone || spare(b.digest)
    decreases |bs|
  {
    EvictTakes(bs, total, max, spare);
    if bs != [] && total > max {
      if spare(bs[0].digest) {
        EvictMeetsQuota(bs[1..], total, max, spare);
      } else {
        EvictMeetsQuota(bs[1..], total - bs[0].file.size, max, spare);
      }
    }
  }

  /** The loop takes no blob before an unpinned one that is sorted before it. */
  lemma {:induction false} EvictInOrder(bs: seq<Blob>, le: (Blob, Blob) -> bool, total: nat, max: nat,
      spare: string -> bool, e: Blob, b: Blob)
    requires Sorted(bs, le) && SumSizes(bs) <= total
    requires var gone := Evict(bs, total, max, spare); e in gone && b !in gone
    requires b in bs && Unpinned(spare, b)
    ensures le(e, b)
    decreases |bs|
  {
    assert b == bs[0] || b in bs[1..];
    if spare(bs[0].digest) {
      EvictInOrder(bs[1..], le, total, max, spare, e, b);
    } else if e != bs[0] {
      EvictInOrder(bs[1..], le, total - bs[0].file.size, max, spare, e, b);
    }
  }

  /** The last blob taken was needed. */
  lemma {:induction false} EvictMinimal(bs: seq<Blob>, total: nat, max: nat, spare: string -> bool)
    requires SumSizes(bs) <= total
    ensures var gone := Evict(bs, total, max, spare);
            gone != [] ==> total - SumSizes(gone) + gone[|gone| - 1].file.size > max
    decreases |bs|
  {
    EvictTakes(bs, total, max, spare);
    if bs != [] && total > max {
      if spare(bs[0].digest) {
        EvictMinimal(bs[1..], total, max, spare);
      } else {
        EvictMinimal(bs[1..], total - bs[0].file.size, max, spare);
      }
    }
  }

  /** Taking listed blobs off takes their sizes off the total. */
  lemma {:induction false} TotalRemoved(counted: map<string, File>, gone: seq<Blob>)
    requires Distinct(gone) && forall b | b in gone :: b.digest in counted && counted[b.digest] == b.file
    ensures Total(Sizes(counted)) == Total(Sizes(counted - DigestsOf(gone))) + SumSizes(gone)
    decreases |gone|
  {
    if gone == [] {
      assert counted - DigestsOf(gone) == counted;
    } else {
      var d := gone[0].digest;
      var rest := counted - {d};
      assert gone[0] in gone;
      forall b | b in gone[1..] ensures b.digest in rest && rest[b.digest] == b.file {
        assert b in gone;
      }
      TotalRemoved(rest, gone[1..]);
      SizesWithout(counted, d);
      assert DigestsOf(gone) == {d} + DigestsOf(gone[1..]) by {
        assert gone == [gone[0]] + gone[1..];
      }
      assert rest - DigestsOf(gone[1..]) == counted - DigestsOf(gone);
    }
  }

  lemma {:induction false} EvictDistinct(bs: seq<Blob>, total: nat, max: nat, spare: string -> bool)
    requires Distinct(bs)
    ensures Distinct(Evict(bs, total, max, spare))
    ensures forall b | b in Evict(bs, total, max, spare) :: b in bs
    decreases |bs|
  {
    if bs != [] && total > max {
      if spare(bs[0].digest) {
        EvictDistinct(bs[1..], total, max, spare);
      } else {
        var left := SaturatingSub(total, bs[0].file.size);
        EvictDistinct(bs[1..], left, max, spare);
        var rest := Evict(bs[1..], left, max, spare);
        forall i | 0 <= i < |rest| ensures rest[i].digest != bs[0].digest {
          assert rest[i] in rest;
        }
      }
    }
  }

  // ----- The disk afterwards

  /** Removing digests from the disk removes exactly them from what is counted. */
  lemma CountedRemoved(disk: Disk, ds: set<string>)
    ensures Counted(Removed(disk, ds)) == Counted(disk) - ds
  {
    var after := Removed(disk, ds);
    assert forall d :: d in FlatDigests(after.cas) <==> d in FlatDigests(disk.cas) && d !in ds;
  }

  lemma RemovedNone(disk: Disk)
    ensures Removed(disk, DigestsOf([])) == disk
  {
    assert FlatNames({}) == {};
    assert disk.standard - {} == disk.standard && disk.cas - {} == disk.cas;
  }

  lemma RemovedSpares(disk: Disk, ds: set<string>, d: string)
    requires d !in ds
    ensures d in disk.standard ==> d in Removed(disk, ds).standard && Removed(disk, ds).standard[d] == disk.standard[d]
    ensures Gguf(d) in disk.cas ==>
      Gguf(d) in Removed(disk, ds).cas && Removed(disk, ds).cas[Gguf(d)] == disk.cas[Gguf(d)]
  {
    assert Gguf(d) !in FlatNames(ds);
  }
}
