/** What reading a directory gives, and what sorting it gives. */
module Listings {
  import opened Sorting
  import opened Lexicographic

  ghost predicate NoRepeats<N>(names: seq<N>)
  {
    forall i, j | 0 <= i < j < |names| :: names[i] != names[j]
  }

  /** Every name once, in any order. */
  ghost predicate Listing<N>(names: seq<N>, dir: set<N>)
  {
    && NoRepeats(names)
    && (set name | name in names) == dir
  }

  lemma InListing<N>(names: seq<N>, dir: set<N>)
    requires Listing(names, dir)
    ensures forall i | 0 <= i < |names| :: names[i] in dir
    ensures forall n | n in dir :: n in names
  {
    forall i | 0 <= i < |names| ensures names[i] in dir {
      assert names[i] in set n | n in names;
    }
    forall n | n in dir ensures n in names {
      assert n in set m | m in names;
    }
  }

  lemma HeadApart<N>(head: N, rest: seq<N>)
    ensures multiset([head] + rest) == multiset{head} + multiset(rest)
    ensures NoRepeats([head] + rest) <==> head !in rest && NoRepeats(rest)
  {
    var names := [head] + rest;
    if NoRepeats(names) {
      forall i | 0 <= i < |rest| ensures rest[i] != head {
        assert names[0] != names[i + 1];
      }
      forall i, j | 0 <= i < j < |rest| ensures rest[i] != rest[j] {
        assert names[i + 1] != names[j + 1];
      }
    }
  }

  /** Nothing twice means no more than once. */
  lemma {:induction false} NoRepeatsOnce<N>(names: seq<N>)
    requires NoRepeats(names)
    ensures forall n | n in names :: multiset(names)[n] == 1
    decreases |names|
  {
    if names != [] {
      assert names == [names[0]] + names[1..];
      HeadApart(names[0], names[1..]);
      NoRepeatsOnce(names[1..]);
    }
  }

  lemma {:induction false} OnceNoRepeats<N>(names: seq<N>)
    requires forall n | n in names :: multiset(names)[n] == 1
    ensures NoRepeats(names)
    decreases |names|
  {
    if names != [] {
      var head, rest := names[0], names[1..];
      assert names == [head] + rest;
      HeadApart(head, rest);
      assert multiset(names)[head] == 1;
      forall n | n in rest ensures multiset(rest)[n] == 1 {
        assert n in names && multiset(names)[n] == 1;
      }
      OnceNoRepeats(rest);
    }
  }

  /** A sorted listing is the listing in strictly ascending order, whatever order was read. */
  lemma SortedListing(names: seq<string>, dir: set<string>)
    requires Listing(names, dir)
    ensures Listing(Sort(names, Le), dir) && Sorted(Sort(names, Le), Le)
    ensures forall other | Listing(other, dir) :: Sort(other, Le) == Sort(names, Le)
  {
    LeOrders();
    SortSorts(names, Le);
    SortElements(names, Le);
    SameListing(names, Sort(names, Le), dir);
    forall other | Listing(other, dir) ensures Sort(other, Le) == Sort(names, Le) {
      SortAnyListing(names, other, dir);
    }
  }

  lemma SameListing<N>(a: seq<N>, b: seq<N>, dir: set<N>)
    requires Listing(a, dir) && multiset(a) == multiset(b)
    ensures Listing(b, dir)
  {
    NoRepeatsOnce(a);
    assert forall n :: n in a <==> n in multiset(a);
    assert forall n :: n in b <==> n in multiset(b);
    OnceNoRepeats(b);
  }

  lemma SortAnyListing(a: seq<string>, b: seq<string>, dir: set<string>)
    requires Listing(a, dir) && Listing(b, dir)
    ensures Sort(a, Le) == Sort(b, Le)
  {
    ListingsPermute(a, b, dir);
    LeOrders();
    SortSorts(a, Le);
    SortSorts(b, Le);
    SortElements(a, Le);
    SortElements(b, Le);
    forall x, y | Le(x, y) && Le(y, x) ensures x == y {
      LeAntisymmetric(x, y);
    }
    SortedUnique(Sort(a, Le), Sort(b, Le), Le);
  }

  lemma ListingsPermute<N>(a: seq<N>, b: seq<N>, dir: set<N>)
    requires Listing(a, dir) && Listing(b, dir)
    ensures multiset(a) == multiset(b)
  {
    NoRepeatsOnce(a);
    NoRepeatsOnce(b);
    InListing(a, dir);
    InListing(b, dir);
    forall n ensures multiset(a)[n] == multiset(b)[n] {
      assert n in a <==> n in dir;
      assert n in b <==> n in dir;
    }
  }
}
