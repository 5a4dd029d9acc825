/** Two prunes in a row against one: the loop continues where it stopped, and the outcome is
    independent of the listing order exactly when ties are harmless. */
module PruneComposition {
  import opened Digests
  import opened Sums
  import opened Sorting
  import opened Prune
  import opened PruneProperties

  // ----- The loop, continued

  function Without(bs: seq<Blob>, gone: seq<Blob>): seq<Blob>
  {
    if bs == [] then [] else (if bs[0] in gone then [] else [bs[0]]) + Without(bs[1..], gone)
  }

  lemma {:induction false} WithoutAbsent(bs: seq<Blob>, gone: seq<Blob>, x: Blob)
    requires x !in bs
    ensures Without(bs, [x] + gone) == Without(bs, gone)
    decreases |bs|
  {
    if bs != [] {
      assert bs[0] in bs;
      WithoutAbsent(bs[1..], gone, x);
    }
  }

  lemma {:induction false} WithoutNothing(bs: seq<Blob>)
    ensures Without(bs, []) == bs
    decreases |bs|
  {
    if bs != [] {
      WithoutNothing(bs[1..]);
    }
  }

  /** What the loop removes on the way to a tight quota, after stopping at a loose one. */
  function Further(bs: seq<Blob>, total: nat, tight: nat, loose: nat, spare: string -> bool): seq<Blob>
    requires SumSizes(Evict(bs, total, loose, spare)) <= total
  {
    var first := Evict(bs, total, loose, spare);
    Evict(Without(bs, first), total - SumSizes(first), tight, spare)
  }

  /** The loop to a tight quota is the loop to a loose one, continued on what that left. */
  lemma {:induction false} EvictComposes(bs: seq<Blob>, total: nat, tight: nat, loose: nat, spare: string -> bool)
    requires tight <= loose && Distinct(bs) && SumSizes(bs) <= total
    ensures SumSizes(Evict(bs, total, loose, spare)) <= total
    ensures Evict(bs, total, tight, spare) == Evict(bs, total, loose, spare) + Further(bs, total, tight, loose, spare)
    decreases |bs|
  {
    EvictTakes(bs, total, loose, spare);
    if bs == [] || total <= loose {
      WithoutNothing(bs);
    } else if spare(bs[0].digest) {
      EvictComposes(bs[1..], total, tight, loose, spare);
      PinnedHead(bs, total, tight, loose, spare);
    } else {
      var left := total - bs[0].file.size;
      EvictComposes(bs[1..], left, tight, loose, spare);
      EvictedHead(bs, total, tight, loose, spare);
      Associate(bs[0], Evict(bs[1..], left, loose, spare), Further(bs[1..], left, tight, loose, spare));
    }
  }

  lemma Associate(b: Blob, first: seq<Blob>, more: seq<Blob>)
    ensures [b] + (first + more) == [b] + first + more
  {
  }

  lemma EvictSkips(bs: seq<Blob>, total: nat, max: nat, spare: string -> bool)
    requires bs != [] && spare(bs[0].digest)
    ensures Evict(bs, total, max, spare) == Evict(bs[1..], total, max, spare)
  {
  }

  /** The same when the loop continues on what an earlier one left. */
  lemma ContinuedSkips(bs: seq<Blob>, first: seq<Blob>, total: nat, max: nat, spare: string -> bool)
    requires bs != [] && bs[0] !in first && spare(bs[0].digest)
    ensures Evict(Without(bs, first), total, max, spare) == Evict(Without(bs[1..], first), total, max, spare)
  {
    var rest := Without(bs[1..], first);
    assert Without(bs, first) == [bs[0]] + rest && ([bs[0]] + rest)[1..] == rest;
    EvictSkips([bs[0]] + rest, total, max, spare);
  }

  lemma FurtherSkips(bs: seq<Blob>, total: nat, tight: nat, loose: nat, spare: string -> bool)
    requires bs != [] && spare(bs[0].digest) && bs[0] !in Evict(bs[1..], total, loose, spare)
    requires Evict(bs, total, loose, spare) == Evict(bs[1..], total, loose, spare)
    requires SumSizes(Evict(bs[1..], total, loose, spare)) <= total
    ensures Further(bs, total, tight, loose, spare) == Further(bs[1..], total, tight, loose, spare)
  {
    var first := Evict(bs[1..], total, loose, spare);
    ContinuedSkips(bs, first, total - SumSizes(first), tight, spare);
  }

  /** A pinned blob at the head stays there and is skipped again. */
  lemma PinnedHead(bs: seq<Blob>, total: nat, tight: nat, loose: nat, spare: string -> bool)
    requires tight <= loose < total && bs != [] && SumSizes(bs) <= total && spare(bs[0].digest)
    ensures Evict(bs, total, loose, spare) == Evict(bs[1..], total, loose, spare)
    ensures Evict(bs, total, tight, spare) == Evict(bs[1..], total, tight, spare)
    ensures SumSizes(Evict(bs[1..], total, loose, spare)) <= total
    ensures Further(bs, total, tight, loose, spare) == Further(bs[1..], total, tight, loose, spare)
  {
    EvictTakes(bs[1..], total, loose, spare);
    EvictSkips(bs, total, loose, spare);
    EvictSkips(bs, total, tight, spare);
    FurtherSkips(bs, total, tight, loose, spare);
  }

  lemma EvictTakesHead(bs: seq<Blob>, total: nat, max: nat, spare: string -> bool)
    requires bs != [] && max < total && SumSizes(bs) <= total && !spare(bs[0].digest)
    ensures Evict(bs, total, max, spare) == [bs[0]] + Evict(bs[1..], total - bs[0].file.size, max, spare)
  {
  }

  lemma SumCons(b: Blob, bs: seq<Blob>)
    ensures SumSizes([b] + bs) == b.file.size + SumSizes(bs)
  {
    assert ([b] + bs)[1..] == bs;
  }

  /** An unpinned blob at the head is removed by both, and is not there for the continuation. */
  lemma EvictedHead(bs: seq<Blob>, total: nat, tight: nat, loose: nat, spare: string -> bool)
    requires tight <= loose < total && bs != [] && Distinct(bs) && SumSizes(bs) <= total && !spare(bs[0].digest)
    ensures var left := total - bs[0].file.size;
            var first := Evict(bs[1..], left, loose, spare);
            && SumSizes(first) <= left
            && Evict(bs, total, loose, spare) == [bs[0]] + first
            && Evict(bs, total, tight, spare) == [bs[0]] + Evict(bs[1..], left, tight, spare)
            && SumSizes([bs[0]] + first) <= total
            && Further(bs, total, tight, loose, spare) == Further(bs[1..], left, tight, loose, spare)
  {
    var left := total - bs[0].file.size;
    var first := Evict(bs[1..], left, loose, spare);
    EvictTakes(bs[1..], left, loose, spare);
    EvictTakesHead(bs, total, loose, spare);
    EvictTakesHead(bs, total, tight, spare);
    SumCons(bs[0], first);
    WithoutHead(bs, first);
  }

  lemma WithoutHead(bs: seq<Blob>, first: seq<Blob>)
    requires bs != [] && Distinct(bs)
    ensures Without(bs, [bs[0]] + first) == Without(bs[1..], first)
  {
    assert bs[0] !in bs[1..];
    WithoutAbsent(bs[1..], first, bs[0]);
    assert bs[0] in [bs[0]] + first;
  }

  // ----- Which blobs go, one by one

  /** The sizes of the blobs that pass a test. */
  ghost function SumIf(bs: seq<Blob>, p: Blob -> bool): nat
    decreases |bs|
  {
    if bs == [] then 0 else (if p(bs[0]) then bs[0].file.size else 0) + SumIf(bs[1..], p)
  }

  ghost function Unspared(spare: string -> bool): Blob -> bool
  {
    (b: Blob) => !spare(b.digest)
  }

  /** Where sorting puts a blob: by age, standard files before flat-only ones of the same age. */
  function Rank(standard: set<string>, d: string, f: File): nat
  {
    2 * f.mtime + if d in standard then 0 else 1
  }

  function NoLater(standard: set<string>): (Blob, Blob) -> bool
  {
    (a: Blob, b: Blob) => Rank(standard, a.digest, a.file) <= Rank(standard, b.digest, b.file)
  }

  predicate RanksBelow(standard: set<string>, a: Blob, b: Blob)
  {
    Rank(standard, a.digest, a.file) < Rank(standard, b.digest, b.file)
  }

  /** The unpinned blobs that rank below `rank`. */
  ghost function Earlier(standard: set<string>, spare: string -> bool, rank: nat): Blob -> bool
  {
    (b: Blob) => !spare(b.digest) && Rank(standard, b.digest, b.file) < rank
  }

  lemma {:induction false} SumIfAppend(a: seq<Blob>, b: seq<Blob>, p: Blob -> bool)
    ensures SumIf(a + b, p) == SumIf(a, p) + SumIf(b, p)
    decreases |a|
  {
    if a == [] {
      assert a + b == b;
    } else {
      SumIfAppend(a[1..], b, p);
      assert (a + b)[1..] == a[1..] + b;
    }
  }

  /** Tests that differ on empty blobs only give the same sum. */
  lemma {:induction false} SumIfSame(bs: seq<Blob>, p: Blob -> bool, q: Blob -> bool)
    requires forall i | 0 <= i < |bs| :: p(bs[i]) == q(bs[i]) || bs[i].file.size == 0
    ensures SumIf(bs, p) == SumIf(bs, q)
    decreases |bs|
  {
    if bs != [] {
      SumIfSame(bs[1..], p, q);
    }
  }

  lemma {:induction false} SumIfNone(bs: seq<Blob>, p: Blob -> bool)
    requires forall i | 0 <= i < |bs| :: !p(bs[i])
    ensures SumIf(bs, p) == 0
    decreases |bs|
  {
    if bs != [] {
      SumIfNone(bs[1..], p);
    }
  }

  lemma {:induction false} SumIfBounded(bs: seq<Blob>, p: Blob -> bool)
    ensures SumIf(bs, p) <= SumSizes(bs)
    decreases |bs|
  {
    if bs != [] {
      SumIfBounded(bs[1..], p);
    }
  }

  /** A blob goes exactly when it is unpinned and removing the unpinned ones before it is not enough. */
  lemma {:induction false} EvictIff(bs: seq<Blob>, total: nat, max: nat, spare: string -> bool, k: nat)
    requires k < |bs| && Distinct(bs) && SumSizes(bs) <= total
    ensures bs[k] in Evict(bs, total, max, spare)
            <==> !spare(bs[k].digest) && total > max + SumIf(bs[..k], Unspared(spare))
    decreases |bs|
  {
    if total > max {
      var left := if spare(bs[0].digest) then total else total - bs[0].file.size;
      EvictDistinct(bs[1..], left, max, spare);
      if k > 0 {
        EvictIff(bs[1..], left, max, spare, k - 1);
        assert bs[..k][1..] == bs[1..][..k - 1];
      }
    }
  }

  // ----- The sorted list

  lemma NoLaterIsPreorder(standard: set<string>)
    ensures TotalPreorder(NoLater(standard))
  {
  }

  /** Sorting by age a list that has the standard files first sorts it by rank. */
  lemma {:induction false} SortRanks(bs: seq<Blob>, standard: set<string>)
    requires StandardFirst(bs, standard)
    ensures Sort(bs, NoNewer) == Sort(bs, NoLater(standard))
    decreases |bs|
  {
    if bs != [] {
      var rest := Sort(bs[1..], NoNewer);
      SortRanks(bs[1..], standard);
      forall i | 0 <= i < |rest| ensures NoNewer(bs[0], rest[i]) == NoLater(standard)(bs[0], rest[i]) {
        SortElements(bs[1..], NoNewer);
        assert rest[i] in multiset(rest);
        var j :| 0 <= j < |bs[1..]| && bs[1..][j] == rest[i];
        assert bs[j + 1] == rest[i];
      }
      InsertSame(bs[0], rest, NoNewer, NoLater(standard));
    }
  }

  lemma {:induction false} InsertSame(x: Blob, s: seq<Blob>, le: (Blob, Blob) -> bool, le': (Blob, Blob) -> bool)
    requires forall i | 0 <= i < |s| :: le(x, s[i]) == le'(x, s[i])
    ensures Insert(x, s, le) == Insert(x, s, le')
    decreases |s|
  {
    if s != [] {
      InsertSame(x, s[1..], le, le');
    }
  }

  /** The sorted list is one of the counted blobs, in the order of their ranks. */
  lemma SortedByRank(bs: seq<Blob>, counted: map<string, File>, standard: set<string>)
    requires Lists(bs, counted) && StandardFirst(bs, standard)
    ensures Lists(Sort(bs, NoNewer), counted) && Sorted(Sort(bs, NoNewer), NoLater(standard))
  {
    SortLists(bs, counted);
    SortRanks(bs, standard);
    NoLaterIsPreorder(standard);
    SortSorts(bs, NoLater(standard));
  }

  /** Between an unpinned blob with a standard file and an unpinned flat-only one of the same age the
      order is fixed: no removed blob ranks above an unpinned one that stays. */
  lemma RemovedByRank(disk: Disk, pinned: set<string>, max: nat, disk': Disk, reclaimed: nat, e: string, d: string)
    requires Pruned(disk, pinned, max, disk', reclaimed)
    requires e in Counted(disk) && e !in Counted(disk') && d in Counted(disk') && !IsPinned(pinned, d)
    ensures d in Counted(disk)
    ensures Rank(disk.standard.Keys, e, Counted(disk)[e]) <= Rank(disk.standard.Keys, d, Counted(disk)[d])
  {
    var bs: seq<Blob> :| RanOn(bs, disk, pinned, max, disk', reclaimed);
    CountedRemoved(disk, DigestsOf(Gone(Counted(disk), bs, max, PinTest(pinned))));
    GoneByRank(Counted(disk), bs, disk.standard.Keys, max, PinTest(pinned), e, d);
  }

  lemma GoneByRank(counted: map<string, File>, bs: seq<Blob>, standard: set<string>, max: nat, spare: string -> bool,
                   e: string, d: string)
    requires Lists(bs, counted) && StandardFirst(bs, standard)
    requires var left := counted - DigestsOf(Gone(counted, bs, max, spare));
             e in counted && e !in left && d in left && !spare(d)
    ensures Rank(standard, e, counted[e]) <= Rank(standard, d, counted[d])
  {
    RunFacts(counted, bs, max, spare);
    SortedByRank(bs, counted, standard);
    var gone := Gone(counted, bs, max, spare);
    var out :| out in gone && out.digest == e;
    assert Blob(d, counted[d]) in Sort(bs, NoNewer) && Blob(d, counted[d]) !in gone;
    EvictInOrder(Sort(bs, NoNewer), NoLater(standard), Total(Sizes(counted)), max, spare, out, Blob(d, counted[d]));
  }

  // ----- The same over maps

  /** The sizes of the unpinned blobs that rank below `rank`. */
  ghost function EarlierSizes(counted: map<string, File>, standard: set<string>, spare: string -> bool, rank: nat)
    : map<string, nat>
  {
    map d | d in counted && !spare(d) && Rank(standard, d, counted[d]) < rank :: counted[d].size
  }

  ghost function EarlierTotal(counted: map<string, File>, standard: set<string>, spare: string -> bool, rank: nat): nat
  {
    Total(EarlierSizes(counted, standard, spare, rank))
  }

  lemma EarlierStep(counted: map<string, File>, standard: set<string>, spare: string -> bool, rank: nat, d: string)
    requires d in counted
    ensures EarlierTotal(counted, standard, spare, rank)
            == EarlierTotal(counted - {d}, standard, spare, rank)
               + if !spare(d) && Rank(standard, d, counted[d]) < rank then counted[d].size else 0
  {
    var all := EarlierSizes(counted, standard, spare, rank);
    var rest := EarlierSizes(counted - {d}, standard, spare, rank);
    assert rest == all - {d};
    if d in all {
      TotalWithout(all, d);
    } else {
      assert all == rest;
    }
  }

  lemma {:induction false} EarlierListed(bs: seq<Blob>, counted: map<string, File>, standard: set<string>,
                                         spare: string -> bool, rank: nat)
    requires Lists(bs, counted)
    ensures SumIf(bs, Earlier(standard, spare, rank)) == EarlierTotal(counted, standard, spare, rank)
    decreases |bs|
  {
    if bs == [] {
      assert counted == map[];
      assert EarlierSizes(counted, standard, spare, rank) == map[];
    } else {
      ListsRest(bs, counted);
      EarlierListed(bs[1..], counted - {bs[0].digest}, standard, spare, rank);
      EarlierStep(counted, standard, spare, rank, bs[0].digest);
    }
  }

  /** Different unpinned blobs of equal age in the same directory are empty. */
  ghost predicate TiesHarmless(counted: map<string, File>, standard: set<string>, spare: string -> bool)
  {
    forall d, e | Tied(counted, standard, spare, d, e) :: counted[d].size == 0
  }

  /** Two unpinned blobs of equal age, both with a standard file or both with a flat one only. */
  predicate Tied(counted: map<string, File>, standard: set<string>, spare: string -> bool, d: string, e: string)
  {
    && d in counted && e in counted && d != e && !spare(d) && !spare(e)
    && counted[d].mtime == counted[e].mtime && (d in standard <==> e in standard)
  }

  /** What precedes a blob in the sorted list, when what is tied with it does not weigh. */
  lemma SumBefore(sorted: seq<Blob>, standard: set<string>, spare: string -> bool, k: nat, rank: nat)
    requires Sorted(sorted, NoLater(standard)) && k < |sorted|
    requires rank == Rank(standard, sorted[k].digest, sorted[k].file)
    requires forall i | 0 <= i < k && !spare(sorted[i].digest) ::
               Rank(standard, sorted[i].digest, sorted[i].file) < rank || sorted[i].file.size == 0
    ensures SumIf(sorted[..k], Unspared(spare)) == SumIf(sorted, Earlier(standard, spare, rank))
  {
    var earlier := Earlier(standard, spare, rank);
    var before, after := sorted[..k], sorted[k..];
    assert SumIf(sorted, earlier) == SumIf(before, earlier) + SumIf(after, earlier) by {
      assert sorted == before + after;
      SumIfAppend(before, after, earlier);
    }
    assert SumIf(after, earlier) == 0 by {
      forall i | 0 <= i < |after| ensures !earlier(after[i]) {
        assert i > 0 ==> NoLater(standard)(sorted[k], sorted[k + i]);
      }
      SumIfNone(after, earlier);
    }
    SumIfSame(before, Unspared(spare), earlier);
  }

  lemma BeforeIsEarlier(sorted: seq<Blob>, counted: map<string, File>, standard: set<string>, spare: string -> bool,
                        k: nat, rank: nat)
    requires Lists(sorted, counted) && Sorted(sorted, NoLater(standard)) && k < |sorted|
    requires rank == Rank(standard, sorted[k].digest, sorted[k].file)
    requires forall i | 0 <= i < k && !spare(sorted[i].digest) ::
               Rank(standard, sorted[i].digest, sorted[i].file) < rank || sorted[i].file.size == 0
    ensures SumIf(sorted[..k], Unspared(spare)) == EarlierTotal(counted, standard, spare, rank)
  {
    SumBefore(sorted, standard, spare, k, rank);
    EarlierListed(sorted, counted, standard, spare, rank);
  }

  /** The digests a prune removes when ties are harmless: those for which removing everything that
      ranks below them is not enough. */
  ghost function Evicted(counted: map<string, File>, standard: set<string>, max: nat, spare: string -> bool)
    : set<string>
  {
    set d | d in counted && !spare(d)
            && Total(Sizes(counted)) > max + EarlierTotal(counted, standard, spare, Rank(standard, d, counted[d]))
  }

  lemma OnlyItself(counted: map<string, File>, bs: seq<Blob>, max: nat, spare: string -> bool, b: Blob)
    requires Lists(bs, counted) && b in Sort(bs, NoNewer)
    ensures var gone := Gone(counted, bs, max, spare);
            b.digest in DigestsOf(gone) <==> b in gone
  {
    RunFacts(counted, bs, max, spare);
  }

  /** A listed digest goes exactly when it is unpinned and the unpinned blobs sorted before it do not suffice. */
  lemma GoesIff(counted: map<string, File>, bs: seq<Blob>, max: nat, spare: string -> bool, k: nat)
    requires Lists(bs, counted) && k < |Sort(bs, NoNewer)|
    ensures var sorted := Sort(bs, NoNewer);
            sorted[k].digest in DigestsOf(Gone(counted, bs, max, spare))
            <==> !spare(sorted[k].digest) && Total(Sizes(counted)) > max + SumIf(sorted[..k], Unspared(spare))
  {
    var sorted := Sort(bs, NoNewer);
    SortLists(bs, counted);
    ListsSum(sorted, counted);
    OnlyItself(counted, bs, max, spare, sorted[k]);
    EvictIff(sorted, Total(Sizes(counted)), max, spare, k);
  }

  lemma GoneIf(counted: map<string, File>, bs: seq<Blob>, standard: set<string>, max: nat, spare: string -> bool,
               d: string)
    requires Lists(bs, counted) && StandardFirst(bs, standard)
    requires TiesHarmless(counted, standard, spare) && d in counted
    ensures d in DigestsOf(Gone(counted, bs, max, spare)) <==> d in Evicted(counted, standard, max, spare)
  {
    var sorted, rank := Sort(bs, NoNewer), Rank(standard, d, counted[d]);
    SortedByRank(bs, counted, standard);
    assert Blob(d, counted[d]) in sorted;
    var k :| 0 <= k < |sorted| && sorted[k] == Blob(d, counted[d]);
    GoesIff(counted, bs, max, spare, k);
    if !spare(d) {
      forall i | 0 <= i < k && !spare(sorted[i].digest)
        ensures Rank(standard, sorted[i].digest, sorted[i].file) < rank || sorted[i].file.size == 0
      {
        TieBefore(sorted, counted, standard, spare, k, i);
      }
      BeforeIsEarlier(sorted, counted, standard, spare, k, rank);
    }
  }

  lemma TieBefore(sorted: seq<Blob>, counted: map<string, File>, standard: set<string>, spare: string -> bool,
                  k: nat, i: nat)
    requires Lists(sorted, counted) && Sorted(sorted, NoLater(standard)) && TiesHarmless(counted, standard, spare)
    requires i < k < |sorted| && !spare(sorted[i].digest) && !spare(sorted[k].digest)
    ensures Rank(standard, sorted[i].digest, sorted[i].file) < Rank(standard, sorted[k].digest, sorted[k].file)
            || sorted[i].file.size == 0
  {
    var d, e := sorted[i].digest, sorted[k].digest;
    assert sorted[i] in sorted && sorted[k] in sorted;
    assert NoLater(standard)(sorted[i], sorted[k]);
    if Rank(standard, d, counted[d]) == Rank(standard, e, counted[e]) {
      assert Tied(counted, standard, spare, d, e);
    }
  }

  /** With harmless ties the order within the directories does not matter. */
  lemma GoneIs(counted: map<string, File>, bs: seq<Blob>, standard: set<string>, max: nat, spare: string -> bool)
    requires Lists(bs, counted) && StandardFirst(bs, standard) && TiesHarmless(counted, standard, spare)
    ensures DigestsOf(Gone(counted, bs, max, spare)) == Evicted(counted, standard, max, spare)
  {
    RunFacts(counted, bs, max, spare);
    forall d | d in counted
      ensures d in DigestsOf(Gone(counted, bs, max, spare)) <==> d in Evicted(counted, standard, max, spare)
    {
      GoneIf(counted, bs, standard, max, spare, d);
    }
  }

  // ----- Two runs

  lemma EarlierGrows(counted: map<string, File>, standard: set<string>, spare: string -> bool, m: nat, n: nat)
    requires m <= n
    ensures EarlierTotal(counted, standard, spare, m) <= EarlierTotal(counted, standard, spare, n)
  {
    TotalPart(EarlierSizes(counted, standard, spare, n), EarlierSizes(counted, standard, spare, m));
  }

  /** What goes ranks below any unpinned blob that stays. */
  lemma EvictedAreEarlier(counted: map<string, File>, standard: set<string>, max: nat, spare: string -> bool,
                          d: string, e: string)
    requires d in counted && !spare(d)
    requires d !in Evicted(counted, standard, max, spare) && e in Evicted(counted, standard, max, spare)
    ensures Rank(standard, e, counted[e]) < Rank(standard, d, counted[d])
  {
    if Rank(standard, e, counted[e]) >= Rank(standard, d, counted[d]) {
      EarlierGrows(counted, standard, spare, Rank(standard, d, counted[d]), Rank(standard, e, counted[e]));
    }
  }

  lemma EarlierMinus(counted: map<string, File>, standard: set<string>, spare: string -> bool, rank: nat,
                     gone: set<string>)
    ensures EarlierSizes(counted, standard, spare, rank) - gone == EarlierSizes(counted - gone, standard, spare, rank)
  {
  }

  /** The sizes of the digests that went. */
  ghost function Part(sizes: map<string, nat>, gone: set<string>): map<string, nat>
  {
    map e | e in sizes && e in gone :: sizes[e]
  }

  lemma EarlierWithout(counted: map<string, File>, standard: set<string>, spare: string -> bool, rank: nat,
                       gone: set<string>)
    requires forall e | e in gone :: e in counted && !spare(e) && Rank(standard, e, counted[e]) < rank
    ensures EarlierTotal(counted, standard, spare, rank) - EarlierTotal(counted - gone, standard, spare, rank)
            == Total(Sizes(counted)) - Total(Sizes(counted - gone))
  {
    var earlier, all := EarlierSizes(counted, standard, spare, rank), Sizes(counted);
    EarlierMinus(counted, standard, spare, rank, gone);
    assert all - gone == Sizes(counted - gone);
    assert Part(earlier, gone) == Part(all, gone);
    TotalSplit(earlier, gone);
    TotalSplit(all, gone);
  }

  /** After a loose prune what ranks below a blob that stayed lacks all that went. */
  lemma EarlierLeft(counted: map<string, File>, standard: set<string>, loose: nat, spare: string -> bool, d: string)
    requires d in counted && !spare(d) && d !in Evicted(counted, standard, loose, spare)
    ensures var left, rank := counted - Evicted(counted, standard, loose, spare), Rank(standard, d, counted[d]);
            Total(Sizes(counted)) - EarlierTotal(counted, standard, spare, rank)
            == Total(Sizes(left)) - EarlierTotal(left, standard, spare, rank)
  {
    var rank := Rank(standard, d, counted[d]);
    forall e | e in Evicted(counted, standard, loose, spare) ensures Rank(standard, e, counted[e]) < rank {
      EvictedAreEarlier(counted, standard, loose, spare, d, e);
    }
    EarlierWithout(counted, standard, spare, rank, Evicted(counted, standard, loose, spare));
  }

  /** The second of two prunes takes exactly what the direct one takes further. */
  lemma EvictedTwice(counted: map<string, File>, standard: set<string>, tight: nat, loose: nat, spare: string -> bool)
    requires tight <= loose
    ensures var first := Evicted(counted, standard, loose, spare);
            Evicted(counted, standard, tight, spare) == first + Evicted(counted - first, standard, tight, spare)
  {
    var first := Evicted(counted, standard, loose, spare);
    forall d | d in counted && !spare(d) && d !in first
      ensures d in Evicted(counted, standard, tight, spare) <==> d in Evicted(counted - first, standard, tight, spare)
    {
      EarlierLeft(counted, standard, loose, spare, d);
    }
  }

  /** `standard` tells which counted digests have a standard file. */
  ghost predicate TellsStandard(standard: set<string>, disk: Disk)
  {
    forall d | d in Counted(disk) :: d in standard <==> d in disk.standard
  }

  lemma RemovedIs(disk: Disk, standard: set<string>, pinned: set<string>, max: nat, disk': Disk, reclaimed: nat)
    requires Pruned(disk, pinned, max, disk', reclaimed)
    requires TellsStandard(standard, disk) && TiesHarmless(Counted(disk), standard, PinTest(pinned))
    ensures var gone := Evicted(Counted(disk), standard, max, PinTest(pinned));
            && disk' == Removed(disk, gone) && Counted(disk') == Counted(disk) - gone
            && TellsStandard(standard, disk')
  {
    var bs: seq<Blob> :| RanOn(bs, disk, pinned, max, disk', reclaimed);
    assert StandardFirst(bs, standard) by {
      forall i, j | 0 <= i < j < |bs| ensures bs[j].digest in standard ==> bs[i].digest in standard {
        assert bs[i] in bs && bs[j] in bs;
      }
    }
    GoneIs(Counted(disk), bs, standard, max, PinTest(pinned));
    CountedRemoved(disk, Evicted(Counted(disk), standard, max, PinTest(pinned)));
  }

  lemma RemovedTwice(disk: Disk, first: set<string>, second: set<string>)
    ensures Removed(Removed(disk, first), second) == Removed(disk, first + second)
  {
    assert FlatNames(first) + FlatNames(second) == FlatNames(first + second);
  }

  /** The condition of a disk and its pins, which a caller can look up. */
  ghost predicate HarmlessTies(disk: Disk, pinned: set<string>)
  {
    TiesHarmless(Counted(disk), disk.standard.Keys, PinTest(pinned))
  }

  /** Composition: when no unpinned blob with bytes in it is as old as another unpinned one of its
      directory, pruning to a loose quota and then to a tight one leaves the disk that pruning to the
      tight one leaves, and reclaims as much, whatever the orders within the directories. */
  lemma PruneComposes(disk: Disk, pinned: set<string>, tight: nat, loose: nat,
                      disk1: Disk, r1: nat, disk2: Disk, r2: nat, direct: Disk, r: nat)
    requires tight <= loose && HarmlessTies(disk, pinned)
    requires Pruned(disk, pinned, loose, disk1, r1) && Pruned(disk1, pinned, tight, disk2, r2)
    requires Pruned(disk, pinned, tight, direct, r)
    ensures disk2 == direct && r1 + r2 == r
  {
    var spare, standard := PinTest(pinned), disk.standard.Keys;
    var first := Evicted(Counted(disk), standard, loose, spare);
    RemovedIs(disk, standard, pinned, loose, disk1, r1);
    assert TiesHarmless(Counted(disk1), standard, spare) by {
      StillHarmless(Counted(disk), standard, first, spare);
    }
    RemovedIs(disk1, standard, pinned, tight, disk2, r2);
    RemovedIs(disk, standard, pinned, tight, direct, r);
    EvictedTwice(Counted(disk), standard, tight, loose, spare);
    RemovedTwice(disk, first, Evicted(Counted(disk1), standard, tight, spare));
    PruneConserves(disk, pinned, loose, disk1, r1);
    PruneConserves(disk1, pinned, tight, disk2, r2);
    PruneConserves(disk, pinned, tight, direct, r);
  }

  lemma StillHarmless(counted: map<string, File>, standard: set<string>, gone: set<string>, spare: string -> bool)
    requires TiesHarmless(counted, standard, spare)
    ensures TiesHarmless(counted - gone, standard, spare)
  {
    forall d, e | Tied(counted - gone, standard, spare, d, e) ensures (counted - gone)[d].size == 0 {
      assert Tied(counted, standard, spare, d, e);
    }
  }

  /** Under the same condition a tighter quota removes at least what a looser one removes. */
  lemma TighterRemovesMore(disk: Disk, pinned: set<string>, tight: nat, loose: nat,
                           d1: Disk, r1: nat, d2: Disk, r2: nat)
    requires tight <= loose && HarmlessTies(disk, pinned)
    requires Pruned(disk, pinned, loose, d1, r1) && Pruned(disk, pinned, tight, d2, r2)
    ensures Counted(d2).Keys <= Counted(d1).Keys && r1 <= r2
  {
    RemovedIs(disk, disk.standard.Keys, pinned, loose, d1, r1);
    RemovedIs(disk, disk.standard.Keys, pinned, tight, d2, r2);
    PruneConserves(disk, pinned, loose, d1, r1);
    PruneConserves(disk, pinned, tight, d2, r2);
    TotalPart(Sizes(Counted(d1)), Sizes(Counted(d2)));
  }

  // ----- Ties that are not harmless

  /** Any directory content can be listed with one chosen blob first. */
  lemma {:induction false} SomeListing(counted: map<string, File>) returns (bs: seq<Blob>)
    ensures Lists(bs, counted)
    decreases |counted|
  {
    if counted == map[] {
      bs := [];
    } else {
      var d :| d in counted;
      bs := ListedFirst(counted, d);
    }
  }

  lemma {:induction false} ListedFirst(counted: map<string, File>, d: string) returns (bs: seq<Blob>)
    requires d in counted
    ensures Lists(bs, counted) && bs != [] && bs[0].digest == d
    decreases |counted|, 0
  {
    var rest := SomeListing(counted - {d});
    bs := [Blob(d, counted[d])] + rest;
    ListsCons(rest, counted, d);
  }

  lemma ListsCons(rest: seq<Blob>, counted: map<string, File>, d: string)
    requires d in counted && Lists(rest, counted - {d})
    ensures Lists([Blob(d, counted[d])] + rest, counted)
  {
    var bs := [Blob(d, counted[d])] + rest;
    forall i | 0 <= i < |rest| ensures rest[i].digest != d {
      assert rest[i] in rest;
    }
    forall e | e in counted ensures Blob(e, counted[e]) in bs {
      if e == d {
        assert bs[0] == Blob(d, counted[d]);
      } else {
        assert Blob(e, (counted - {d})[e]) in rest;
      }
    }
  }

  ghost function InStandard(counted: map<string, File>, standard: set<string>): map<string, File>
  {
    map d | d in counted && d in standard :: counted[d]
  }

  /** The listings of the two directories, one behind the other. */
  lemma ListsBoth(a: seq<Blob>, b: seq<Blob>, counted: map<string, File>, standard: set<string>)
    requires Lists(a, InStandard(counted, standard)) && Lists(b, counted - standard)
    ensures Lists(a + b, counted) && StandardFirst(a + b, standard)
  {
    forall i | 0 <= i < |a| + |b|
      ensures (a + b)[i].digest in counted && counted[(a + b)[i].digest] == (a + b)[i].file
      ensures (a + b)[i].digest in standard <==> i < |a|
    {
      assert if i < |a| then (a + b)[i] in a else (a + b)[i] in b;
    }
    forall d | d in counted ensures Blob(d, counted[d]) in a + b {
      assert if d in standard then Blob(d, InStandard(counted, standard)[d]) in a
             else Blob(d, (counted - standard)[d]) in b;
    }
  }

  /** The directories can be listed with one blob first in its own. */
  lemma FirstInDirectory(counted: map<string, File>, standard: set<string>, d: string)
    returns (bs: seq<Blob>, i: nat)
    requires d in counted
    ensures Lists(bs, counted) && StandardFirst(bs, standard)
    ensures i < |bs| && bs[i] == Blob(d, counted[d])
    ensures forall j | 0 <= j < i :: bs[j].digest in standard && d !in standard
  {
    var a := SomeListing(InStandard(counted, standard));
    var b := SomeListing(counted - standard);
    if d in standard {
      a := ListedFirst(InStandard(counted, standard), d);
      i := 0;
    } else {
      b := ListedFirst(counted - standard, d);
      i := |a|;
      assert forall j | 0 <= j < i :: a[j] in a;
    }
    bs := a + b;
    ListsBoth(a, b, counted, standard);
    assert bs[i] in bs;
  }

  /** The first element that passes a test is the first one kept, */
  lemma {:induction false} FirstKept(s: seq<Blob>, keep: Blob -> bool, k: nat)
    requires k < |s| && keep(s[k]) && forall i | 0 <= i < k :: !keep(s[i])
    ensures Filter(s, keep) != [] && Filter(s, keep)[0] == s[k]
    decreases |s|
  {
    if k > 0 {
      FirstKept(s[1..], keep, k - 1);
    }
  }

  /** and the first one kept has none before it. */
  lemma {:induction false} KeptFirst(s: seq<Blob>, keep: Blob -> bool, k: nat, i: nat)
    requires Distinct(s) && i < k < |s| && Filter(s, keep) != [] && Filter(s, keep)[0] == s[k]
    ensures !keep(s[i])
    decreases |s|
  {
    if i > 0 && !keep(s[0]) {
      KeptFirst(s[1..], keep, k - 1, i - 1);
    }
  }

  /** Sorting leaves a blob with no tied one before it without a tied one before it. */
  lemma FirstOfTies(bs: seq<Blob>, standard: set<string>, at: nat, k: nat)
    requires Distinct(Sort(bs, NoNewer)) && StandardFirst(bs, standard)
    requires at < |bs| && forall j | 0 <= j < at :: !Tie(NoLater(standard), bs[at])(bs[j])
    requires k < |Sort(bs, NoNewer)| && Sort(bs, NoNewer)[k] == bs[at]
    ensures forall i | 0 <= i < k :: !Tie(NoLater(standard), bs[at])(Sort(bs, NoNewer)[i])
  {
    var sorted, tied := Sort(bs, NoNewer), Tie(NoLater(standard), bs[at]);
    assert Filter(sorted, tied) == Filter(bs, tied) by {
      SortRanks(bs, standard);
      NoLaterIsPreorder(standard);
      SortStable(bs, NoLater(standard), bs[at]);
    }
    FirstKept(bs, tied, at);
    forall i | 0 <= i < k ensures !tied(sorted[i]) {
      KeptFirst(sorted, tied, k, i);
    }
  }

  lemma BelowUnlessTied(standard: set<string>, a: Blob, b: Blob)
    requires NoLater(standard)(a, b)
    ensures RanksBelow(standard, a, b) || Tie(NoLater(standard), b)(a)
  {
  }

  lemma NotTied(standard: set<string>, a: Blob, b: Blob)
    requires a.digest in standard && b.digest !in standard
    ensures !Tie(NoLater(standard), b)(a)
  {
  }

  lemma SortedAt(bs: seq<Blob>, at: nat) returns (k: nat)
    requires at < |bs|
    ensures k < |Sort(bs, NoNewer)| && Sort(bs, NoNewer)[k] == bs[at]
  {
    SortElements(bs, NoNewer);
    assert bs[at] in multiset(bs);
    k :| 0 <= k < |Sort(bs, NoNewer)| && Sort(bs, NoNewer)[k] == bs[at];
  }

  /** Where a blob listed first in its directory ends up: behind those of lower rank only. */
  lemma FirstSorted(counted: map<string, File>, standard: set<string>, bs: seq<Blob>, at: nat) returns (k: nat)
    requires Lists(bs, counted) && StandardFirst(bs, standard) && at < |bs|
    requires forall j | 0 <= j < at :: bs[j].digest in standard && bs[at].digest !in standard
    ensures k < |Sort(bs, NoNewer)| && Sort(bs, NoNewer)[k] == bs[at]
    ensures forall i | 0 <= i < k :: RanksBelow(standard, Sort(bs, NoNewer)[i], bs[at])
  {
    var sorted := Sort(bs, NoNewer);
    SortedByRank(bs, counted, standard);
    k := SortedAt(bs, at);
    forall j | 0 <= j < at ensures !Tie(NoLater(standard), bs[at])(bs[j]) {
      NotTied(standard, bs[j], bs[at]);
    }
    FirstOfTies(bs, standard, at, k);
    forall i | 0 <= i < k ensures RanksBelow(standard, sorted[i], bs[at]) {
      BelowUnlessTied(standard, sorted[i], sorted[k]);
    }
  }

  /** The blob is at `k` in the sorted list, behind those of lower rank, whose unpinned bytes are known. */
  ghost predicate Placed(counted: map<string, File>, standard: set<string>, spare: string -> bool, d: string,
                         bs: seq<Blob>, k: nat)
  {
    var sorted := Sort(bs, NoNewer);
    && d in counted && Lists(sorted, counted) && k < |sorted| && sorted[k] == Blob(d, counted[d])
    && (forall i | 0 <= i < k :: RanksBelow(standard, sorted[i], sorted[k]))
    && SumIf(sorted[..k], Unspared(spare)) == EarlierTotal(counted, standard, spare, Rank(standard, d, counted[d]))
  }

  lemma PlacedFirst(counted: map<string, File>, standard: set<string>, spare: string -> bool, d: string)
    returns (bs: seq<Blob>, k: nat)
    requires d in counted
    ensures Lists(bs, counted) && StandardFirst(bs, standard)
    ensures Placed(counted, standard, spare, d, bs, k)
  {
    var at;
    bs, at := FirstInDirectory(counted, standard, d);
    k := FirstSorted(counted, standard, bs, at);
    SortedByRank(bs, counted, standard);
    BeforeIsEarlier(Sort(bs, NoNewer), counted, standard, spare, k, Rank(standard, d, counted[d]));
  }

  lemma EarlierSmaller(counted: map<string, File>, standard: set<string>, spare: string -> bool, rank: nat, e: string)
    requires e in counted && (spare(e) || Rank(standard, e, counted[e]) >= rank)
    ensures EarlierTotal(counted, standard, spare, rank) + counted[e].size <= Total(Sizes(counted))
  {
    SizesWithout(counted, e);
    EarlierStep(counted, standard, spare, rank, e);
    TotalPart(Sizes(counted - {e}), EarlierSizes(counted - {e}, standard, spare, rank));
  }

  /** The quota at which exactly one of two tied blobs has to go. */
  ghost predicate Crux(counted: map<string, File>, standard: set<string>, spare: string -> bool, e: string, max: nat)
    requires e in counted
  {
    Total(Sizes(counted))
    == max + EarlierTotal(counted, standard, spare, Rank(standard, e, counted[e])) + counted[e].size
  }

  lemma SumFurther(bs: seq<Blob>, p: Blob -> bool, k: nat, j: nat)
    requires k < j <= |bs| && p(bs[k])
    ensures SumIf(bs[..j], p) >= SumIf(bs[..k], p) + bs[k].file.size
  {
    assert bs[..j] == bs[..k] + bs[k..j];
    SumIfAppend(bs[..k], bs[k..j], p);
    assert bs[k..j][0] == bs[k];
  }

  /** Placed first, the tied blob with bytes in it goes and the other stays. */
  lemma HeavyPlaced(counted: map<string, File>, standard: set<string>, spare: string -> bool, d: string, e: string,
                    max: nat, bs: seq<Blob>, k: nat)
    requires Tied(counted, standard, spare, d, e) && Crux(counted, standard, spare, e, max)
    requires Lists(bs, counted) && Placed(counted, standard, spare, e, bs, k)
    ensures d !in DigestsOf(Gone(counted, bs, max, spare))
  {
    var sorted := Sort(bs, NoNewer);
    assert Blob(d, counted[d]) in sorted;
    var j :| 0 <= j < |sorted| && sorted[j] == Blob(d, counted[d]);
    assert j > k;
    SumFurther(sorted, Unspared(spare), k, j);
    GoesIff(counted, bs, max, spare, j);
  }

  /** Placed first, the other goes. */
  lemma OtherPlaced(counted: map<string, File>, standard: set<string>, spare: string -> bool, d: string, e: string,
                    max: nat, bs: seq<Blob>, k: nat)
    requires Tied(counted, standard, spare, d, e) && Crux(counted, standard, spare, e, max) && counted[e].size > 0
    requires Lists(bs, counted) && Placed(counted, standard, spare, d, bs, k)
    ensures d in DigestsOf(Gone(counted, bs, max, spare))
  {
    GoesIff(counted, bs, max, spare, k);
  }

  lemma RunExists(disk: Disk, pinned: set<string>, max: nat, bs: seq<Blob>) returns (disk': Disk, reclaimed: nat)
    requires Lists(bs, Counted(disk)) && StandardFirst(bs, disk.standard.Keys)
    ensures Pruned(disk, pinned, max, disk', reclaimed)
    ensures Counted(disk') == Counted(disk) - DigestsOf(Gone(Counted(disk), bs, max, PinTest(pinned)))
  {
    var gone := Gone(Counted(disk), bs, max, PinTest(pinned));
    disk', reclaimed := Removed(disk, DigestsOf(gone)), SumSizes(gone);
    CountedRemoved(disk, DigestsOf(gone));
    assert RanOn(bs, disk, pinned, max, disk', reclaimed);
  }

  /** Every disk can be pruned. */
  lemma PruneExists(disk: Disk, pinned: set<string>, max: nat) returns (disk': Disk, reclaimed: nat)
    ensures Pruned(disk, pinned, max, disk', reclaimed)
  {
    var a := SomeListing(InStandard(Counted(disk), disk.standard.Keys));
    var b := SomeListing(Counted(disk) - disk.standard.Keys);
    ListsBoth(a, b, Counted(disk), disk.standard.Keys);
    disk', reclaimed := RunExists(disk, pinned, max, a + b);
  }

  /** A tie within a directory that is not harmless breaks composition: at one quota two prunes in a
      row leave a disk that a direct prune need not leave. */
  lemma TiesDoNotCompose(disk: Disk, pinned: set<string>, d: string, e: string)
    returns (max: nat, disk1: Disk, r1: nat, disk2: Disk, r2: nat, direct: Disk, r: nat)
    requires Tied(Counted(disk), disk.standard.Keys, PinTest(pinned), d, e) && Counted(disk)[e].size > 0
    ensures Pruned(disk, pinned, max, disk1, r1) && Pruned(disk1, pinned, max, disk2, r2)
    ensures Pruned(disk, pinned, max, direct, r)
    ensures disk2 != direct && d in Counted(disk2) && d !in Counted(direct)
  {
    var counted, standard, spare := Counted(disk), disk.standard.Keys, PinTest(pinned);
    var rank := Rank(standard, e, counted[e]);
    EarlierSmaller(counted, standard, spare, rank, e);
    max := Total(Sizes(counted)) - EarlierTotal(counted, standard, spare, rank) - counted[e].size;
    var bs, k := PlacedFirst(counted, standard, spare, e);
    HeavyPlaced(counted, standard, spare, d, e, max, bs, k);
    disk1, r1 := RunExists(disk, pinned, max, bs);
    disk2, r2 := PruneExists(disk1, pinned, max);
    PruneIsIdempotent(disk, pinned, max, disk1, r1, disk2, r2);
    bs, k := PlacedFirst(counted, standard, spare, d);
    OtherPlaced(counted, standard, spare, d, e, max, bs, k);
    direct, r := RunExists(disk, pinned, max, bs);
  }

  // ----- The exact condition

  /** Whatever the quotas and the orders within the directories, two prunes in a row do what the direct one does. */
  ghost predicate AlwaysComposes(disk: Disk, pinned: set<string>)
  {
    forall tight: nat, loose: nat, disk1, r1: nat, disk2, r2: nat, direct, r: nat
      | && tight <= loose && Pruned(disk, pinned, loose, disk1, r1) && Pruned(disk1, pinned, tight, disk2, r2)
        && Pruned(disk, pinned, tight, direct, r)
      :: disk2 == direct && r1 + r2 == r
  }

  /** Whatever the orders within the directories, a smaller quota leaves no more digests. */
  ghost predicate AlwaysMonotone(disk: Disk, pinned: set<string>)
  {
    forall tight: nat, loose: nat, d1, r1: nat, d2, r2: nat
      | tight <= loose && Pruned(disk, pinned, loose, d1, r1) && Pruned(disk, pinned, tight, d2, r2)
      :: Counted(d2).Keys <= Counted(d1).Keys && r1 <= r2
  }

  /** Prunes of a disk compose exactly when its ties are harmless. */
  lemma ComposesIff(disk: Disk, pinned: set<string>)
    ensures AlwaysComposes(disk, pinned) <==> HarmlessTies(disk, pinned)
  {
    if HarmlessTies(disk, pinned) {
      forall tight: nat, loose: nat, disk1, r1: nat, disk2, r2: nat, direct, r: nat
        | && tight <= loose && Pruned(disk, pinned, loose, disk1, r1) && Pruned(disk1, pinned, tight, disk2, r2)
          && Pruned(disk, pinned, tight, direct, r)
        ensures disk2 == direct && r1 + r2 == r
      {
        PruneComposes(disk, pinned, tight, loose, disk1, r1, disk2, r2, direct, r);
      }
    } else {
      var e, d :| Tied(Counted(disk), disk.standard.Keys, PinTest(pinned), e, d) && Counted(disk)[e].size != 0;
      var max, disk1, r1, disk2, r2, direct, r := TiesDoNotCompose(disk, pinned, d, e);
    }
  }

  /** A tighter quota removes more exactly under the same condition. */
  lemma MonotoneIff(disk: Disk, pinned: set<string>)
    ensures AlwaysMonotone(disk, pinned) <==> HarmlessTies(disk, pinned)
  {
    if HarmlessTies(disk, pinned) {
      forall tight: nat, loose: nat, d1, r1: nat, d2, r2: nat
        | tight <= loose && Pruned(disk, pinned, loose, d1, r1) && Pruned(disk, pinned, tight, d2, r2)
        ensures Counted(d2).Keys <= Counted(d1).Keys && r1 <= r2
      {
        TighterRemovesMore(disk, pinned, tight, loose, d1, r1, d2, r2);
      }
    } else {
      var e, d :| Tied(Counted(disk), disk.standard.Keys, PinTest(pinned), e, d) && Counted(disk)[e].size != 0;
      var max, disk1, r1, disk2, r2, direct, r := TiesDoNotCompose(disk, pinned, d, e);
      PruneIsIdempotent(disk, pinned, max, disk1, r1, disk2, r2);
      assert Pruned(disk, pinned, max, disk1, r1) && Pruned(disk, pinned, max, direct, r);
    }
  }
}
