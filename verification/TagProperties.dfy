/** What the tag registry is worth: it is a map, its identifiers resolve to what was last set, and its
    list is complete and sorted. */
module TagProperties {
  import opened Wrappers
  import opened Strings
  import opened Digests
  import opened Sorting
  import opened Lexicographic
  import opened Listings
  import opened Tags

  datatype Key = Key(name: string, tag: string)

  // ----- The directories as a map

  ghost function View(dirs: Dirs): map<Key, string>
  {
    map n, t | n in dirs && t in dirs[n] :: Key(n, t) := dirs[n][t]
  }

  lemma ViewIs(dirs: Dirs, k: Key)
    ensures k in View(dirs) <==> Lookup(dirs, k.name, k.tag).Some?
    ensures k in View(dirs) ==> View(dirs)[k] == Lookup(dirs, k.name, k.tag).value
  {
  }

  lemma ViewPut(dirs: Dirs, name: string, tag: string, digest: string)
    ensures View(Put(dirs, name, tag, digest)) == View(dirs)[Key(name, tag) := digest]
  {
    var dirs' := Put(dirs, name, tag, digest);
    forall k: Key
      ensures Lookup(dirs', k.name, k.tag)
              == if k == Key(name, tag) then Some(digest) else Lookup(dirs, k.name, k.tag)
    {
    }
    forall k: Key
      ensures k in View(dirs') <==> k in View(dirs)[Key(name, tag) := digest]
      ensures k in View(dirs') ==> View(dirs')[k] == View(dirs)[Key(name, tag) := digest][k]
    {
      ViewIs(dirs, k);
      ViewIs(dirs', k);
    }
  }

  lemma ViewDrop(dirs: Dirs, name: string, tag: string)
    ensures View(Drop(dirs, name, tag)) == View(dirs) - {Key(name, tag)}
  {
    var dirs' := Drop(dirs, name, tag);
    forall k: Key
      ensures k in View(dirs') <==> k in View(dirs) - {Key(name, tag)}
      ensures k in View(dirs') ==> View(dirs')[k] == View(dirs)[k]
    {
      ViewIs(dirs, k);
      ViewIs(dirs', k);
    }
  }

  function ApplyMap(m: map<Key, string>, op: Op): map<Key, string>
  {
    match op
    case Set(n, t, d) => if CheckSet(n, t, d).Ok? then m[Key(n, t) := Trim(d)] else m
    case Remove(n, t) => if Checked(n, t).Ok? then m - {Key(n, t)} else m
  }

  function Run(dirs: Dirs, ops: seq<Op>): Dirs
    decreases |ops|
  {
    if ops == [] then dirs else Apply(Run(dirs, ops[..|ops| - 1]), ops[|ops| - 1])
  }

  function RunMap(m: map<Key, string>, ops: seq<Op>): map<Key, string>
    decreases |ops|
  {
    if ops == [] then m else ApplyMap(RunMap(m, ops[..|ops| - 1]), ops[|ops| - 1])
  }

  lemma ApplyRefines(dirs: Dirs, op: Op)
    ensures View(Apply(dirs, op)) == ApplyMap(View(dirs), op)
  {
    match op
    case Set(n, t, d) => ViewPut(dirs, n, t, Trim(d));
    case Remove(n, t) => ViewDrop(dirs, n, t);
  }

  /** Any run of operations on the directories is the same run on a map. */
  lemma {:induction false} RunRefines(dirs: Dirs, ops: seq<Op>)
    ensures View(Run(dirs, ops)) == RunMap(View(dirs), ops)
    decreases |ops|
  {
    if ops != [] {
      RunRefines(dirs, ops[..|ops| - 1]);
      ApplyRefines(Run(dirs, ops[..|ops| - 1]), ops[|ops| - 1]);
    }
  }

  // ----- Everything stored is safe

  ghost predicate Valid(m: map<Key, string>)
  {
    forall k | k in m :: IsSegment(k.name) && IsSegment(k.tag) && IsDigest(m[k])
  }

  lemma {:induction false} RunKeepsValid(m: map<Key, string>, ops: seq<Op>)
    requires Valid(m)
    ensures Valid(RunMap(m, ops))
    decreases |ops|
  {
    if ops != [] {
      RunKeepsValid(m, ops[..|ops| - 1]);
    }
  }

  /** Whatever an identifier resolves to has digest form. */
  lemma ResolvedIsDigest(dirs: Dirs, id: string)
    requires Valid(View(dirs)) && Resolve(dirs, id).Ok? && Resolve(dirs, id).value.Some?
    ensures IsDigest(Resolve(dirs, id).value.value)
  {
    var s := Trim(id);
    if !HexDigits(s) {
      var (name, tag) := if SplitOnce(s, ':').Some? then SplitOnce(s, ':').value else (s, "latest");
      ViewIs(dirs, Key(name, tag));
      DigestPlain(View(dirs)[Key(name, tag)]);
    }
  }

  // ----- Resolving

  /** What the last operation on a key left there. */
  function LastSet(ops: seq<Op>, k: Key): Option<string>
    decreases |ops|
  {
    if ops == [] then None
    else
      match ops[|ops| - 1]
      case Set(n, t, d) =>
        if Key(n, t) == k && IsDigest(Trim(d)) then Some(Trim(d)) else LastSet(ops[..|ops| - 1], k)
      case Remove(n, t) =>
        if Key(n, t) == k then None else LastSet(ops[..|ops| - 1], k)
  }

  lemma {:induction false} RunHoldsLast(ops: seq<Op>, k: Key)
    requires IsSegment(k.name) && IsSegment(k.tag)
    ensures LastSet(ops, k) == (if k in RunMap(map[], ops) then Some(RunMap(map[], ops)[k]) else None)
    decreases |ops|
  {
    if ops != [] {
      RunHoldsLast(ops[..|ops| - 1], k);
    }
  }

  /** Resolving `name:tag` is looking that tag up. */
  lemma ResolveName(dirs: Dirs, name: string, tag: string)
    requires IsSegment(name) && IsSegment(tag)
    ensures Resolve(dirs, name + [':'] + tag) == Get(dirs, name, tag)
  {
    var id := name + [':'] + tag;
    SegmentPlain(name);
    SegmentPlain(tag);
    TrimNothing(id);
    SplitsThere(name, ':', tag);
    assert id[|name|] == ':';
  }

  /** A bare name means its latest tag, unless it could be a digest. */
  lemma ResolveBareName(dirs: Dirs, name: string)
    requires IsSegment(name)
    ensures Resolve(dirs, name) ==
            if !HexDigits(name) then Get(dirs, name, "latest")
            else if IsDigest(name) then Ok(Some(name)) else Err(BadDigest(name))
  {
    SegmentPlain(name);
    TrimNothing(name);
  }

  /** After any run from the empty registry, `name:tag` resolves to exactly what was last set there. */
  lemma ResolvesToLastSet(ops: seq<Op>, name: string, tag: string)
    requires IsSegment(name) && IsSegment(tag)
    ensures Resolve(Run(map[], ops), name + [':'] + tag) == Ok(LastSet(ops, Key(name, tag)))
    ensures LastSet(ops, Key(name, tag)).Some? ==> IsDigest(LastSet(ops, Key(name, tag)).value)
  {
    var dirs, k := Run(map[], ops), Key(name, tag);
    ResolveName(dirs, name, tag);
    EmptyView();
    RunRefines(map[], ops);
    RunHoldsLast(ops, k);
    RunKeepsValid(map[], ops);
    ViewIs(dirs, k);
    if k in View(dirs) {
      DigestPlain(View(dirs)[k]);
    }
  }

  lemma EmptyView()
    ensures View(map[]) == map[]
  {
  }

  // ----- Listing

  ghost function Entries(dirs: Dirs): set<ModelTag>
  {
    set n, t | n in dirs && t in dirs[n] :: ModelTag(n, t, Trim(dirs[n][t]))
  }

  ghost predicate AllSafe(dirs: Dirs)
  {
    forall n, t | n in dirs && t in dirs[n] :: Checked(n, t).Ok?
  }

  lemma {:induction false} OfModelIs(dirs: Dirs, name: string, tags: seq<string>)
    requires name in dirs && forall i | 0 <= i < |tags| :: tags[i] in dirs[name]
    ensures var r := OfModel(dirs, name, tags);
            && (r.Ok? <==> forall i | 0 <= i < |tags| :: Checked(name, tags[i]).Ok?)
            && (r.Ok? ==> |r.value| == |tags|)
            && (r.Ok? ==> forall i | 0 <= i < |tags| ::
                  r.value[i] == ModelTag(name, tags[i], Trim(dirs[name][tags[i]])))
    decreases |tags|
  {
    if tags != [] {
      OfModelIs(dirs, name, tags[..|tags| - 1]);
    }
  }

  /** The entries of the models in `names`. */
  ghost function EntriesOf(dirs: Dirs, names: set<string>): set<ModelTag>
  {
    set n, t | n in names && n in dirs && t in dirs[n] :: ModelTag(n, t, Trim(dirs[n][t]))
  }

  lemma ModelListing(dirs: Dirs, name: string, tags: seq<string>)
    requires name in dirs && Listing(tags, dirs[name].Keys)
    ensures var r := OfModel(dirs, name, tags);
            && (r.Ok? <==> forall t | t in dirs[name] :: Checked(name, t).Ok?)
            && (r.Ok? ==> Listing(r.value, EntriesOf(dirs, {name})))
  {
    InListing(tags, dirs[name].Keys);
    OfModelIs(dirs, name, tags);
    var r := OfModel(dirs, name, tags);
    if r.Ok? {
      assert NoRepeats(r.value);
      forall m ensures m in r.value <==> m in EntriesOf(dirs, {name}) {
        if m in EntriesOf(dirs, {name}) {
          var i :| 0 <= i < |tags| && tags[i] == m.tag;
          assert r.value[i] == m;
        }
      }
      assert (set m | m in r.value) == EntriesOf(dirs, {name});
    }
  }

  lemma ListingAppend<N>(a: seq<N>, b: seq<N>, left: set<N>, right: set<N>)
    requires Listing(a, left) && Listing(b, right) && left !! right
    ensures Listing(a + b, left + right)
  {
    InListing(a, left);
    InListing(b, right);
    var c := a + b;
    forall i, j | 0 <= i < j < |c| ensures c[i] != c[j] {
      if i < |a| <= j {
        assert c[i] in left && c[j] in right;
      }
    }
    assert (set n | n in c) == left + right;
  }

  lemma {:induction false} ModelsListing(dirs: Dirs, names: seq<string>, tags: string -> seq<string>)
    requires NoRepeats(names) && forall i | 0 <= i < |names| :: names[i] in dirs
    requires forall n | n in dirs :: Listing(tags(n), dirs[n].Keys)
    ensures var r, seen := OfModels(dirs, names, tags), set n | n in names;
            && (r.Ok? <==> forall n, t | n in seen && t in dirs[n] :: Checked(n, t).Ok?)
            && (r.Ok? ==> Listing(r.value, EntriesOf(dirs, seen)))
    decreases |names|
  {
    if names == [] {
      assert EntriesOf(dirs, set n | n in names) == {};
    } else {
      var init, last := names[..|names| - 1], names[|names| - 1];
      ModelsListing(dirs, init, tags);
      ModelListing(dirs, last, tags(last));
      var before, seen := set n | n in init, set n | n in names;
      assert seen == before + {last} && last !in before;
      EntriesSplit(dirs, before, last);
      if OfModels(dirs, names, tags).Ok? {
        ListingAppend(OfModels(dirs, init, tags).value, OfModel(dirs, last, tags(last)).value,
                      EntriesOf(dirs, before), EntriesOf(dirs, {last}));
      }
    }
  }

  lemma EntriesSplit(dirs: Dirs, names: set<string>, name: string)
    requires name !in names
    ensures EntriesOf(dirs, names + {name}) == EntriesOf(dirs, names) + EntriesOf(dirs, {name})
    ensures EntriesOf(dirs, names) !! EntriesOf(dirs, {name})
  {
  }

  /** The list is refused exactly when some stored name is unsafe; otherwise it has every entry once,
      in strictly ascending order of name and tag, whatever order the directories were read in. */
  lemma ListedCompletely(dirs: Dirs, names: seq<string>, tags: string -> seq<string>)
    requires Lists(dirs, names, tags)
    ensures var r := OfModels(dirs, names, tags);
            && (r.Ok? <==> AllSafe(dirs))
            && (r.Ok? ==>
                  var sorted := Sort(r.value, TagLe);
                  && Listing(sorted, Entries(dirs)) && Sorted(sorted, TagLe)
                  && forall i, j | 0 <= i < j < |sorted| ::
                       if sorted[i].name == sorted[j].name then Precedes(sorted[i].tag, sorted[j].tag)
                       else Precedes(sorted[i].name, sorted[j].name))
  {
    InListing(names, dirs.Keys);
    ModelsListing(dirs, names, tags);
    var r := OfModels(dirs, names, tags);
    assert (set n | n in names) == dirs.Keys;
    assert EntriesOf(dirs, dirs.Keys) == Entries(dirs);
    if r.Ok? {
      TagLeOrders();
      SortSorts(r.value, TagLe);
      SortElements(r.value, TagLe);
      SameListing(r.value, Sort(r.value, TagLe), Entries(dirs));
      KeysApart(dirs, Sort(r.value, TagLe));
      StrictOrder(Sort(r.value, TagLe));
    }
  }

  lemma StrictOrder(list: seq<ModelTag>)
    requires Sorted(list, TagLe)
    requires forall i, j | 0 <= i < j < |list| :: Key(list[i].name, list[i].tag) != Key(list[j].name, list[j].tag)
    ensures forall i, j | 0 <= i < j < |list| ::
              if list[i].name == list[j].name then Precedes(list[i].tag, list[j].tag)
              else Precedes(list[i].name, list[j].name)
  {
    forall i, j | 0 <= i < j < |list|
      ensures if list[i].name == list[j].name then Precedes(list[i].tag, list[j].tag)
              else Precedes(list[i].name, list[j].name)
    {
      assert TagLe(list[i], list[j]);
      LeIs(list[i].name, list[j].name);
      LeIs(list[i].tag, list[j].tag);
    }
  }

  lemma KeysApart(dirs: Dirs, list: seq<ModelTag>)
    requires Listing(list, Entries(dirs))
    ensures forall i, j | 0 <= i < j < |list| :: Key(list[i].name, list[i].tag) != Key(list[j].name, list[j].tag)
  {
    InListing(list, Entries(dirs));
    forall i, j | 0 <= i < j < |list|
      ensures Key(list[i].name, list[i].tag) != Key(list[j].name, list[j].tag)
    {
      assert list[i] in Entries(dirs) && list[j] in Entries(dirs);
    }
  }
}
