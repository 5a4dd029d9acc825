/** The tag registry: model names and variants naming digests, kept as files in one directory a model. */
module Tags {
  import opened Wrappers
  import opened Strings
  import opened Digests
  import opened Sorting
  import opened Lexicographic
  import opened Listings

  datatype TagError =
    | EmptySegment
    | ReservedSegment(segment: string)
    | ForbiddenCharacter(segment: string)
    | UnsupportedCharacter(segment: string)
    | BadDigest(digest: string)

  // ----- Segments

  predicate Allowed(c: char)
  {
    || 'a' <= c <= 'z' || 'A' <= c <= 'Z' || '0' <= c <= '9'
    || c == '.' || c == '-' || c == '_' || c == '+'
  }

  /** Safe as a single path segment. */
  predicate IsSegment(s: string)
  {
    s != "" && s != "." && s != ".." && forall i | 0 <= i < |s| :: Allowed(s[i])
  }

  function ValidateSegment(s: string): (r: Result<string, TagError>)
    ensures r.Ok? <==> IsSegment(s)
    ensures r.Ok? ==> r.value == s
  {
    if s == "" then Err(EmptySegment)
    else if s == "." || s == ".." then Err(ReservedSegment(s))
    else if '/' in s || '\\' in s || '\0' in s then Err(ForbiddenCharacter(s))
    else if exists i | 0 <= i < |s| :: !Allowed(s[i]) then Err(UnsupportedCharacter(s))
    else Ok(s)
  }

  /** The safe segments, character by character. */
  lemma SegmentIs(s: string)
    ensures IsSegment(s) <==> s != "" && s != "." && s != ".." && forall i | 0 <= i < |s| :: Portable(s[i])
  {
    forall i | 0 <= i < |s| ensures Allowed(s[i]) <==> Portable(s[i]) {
      AllowedIs(s[i]);
    }
  }

  predicate Portable(c: char)
  {
    || c in "abcdefghijklmnopqrstuvwxyz" || c in "ABCDEFGHIJKLMNOPQRSTUVWXYZ" || c in "0123456789"
    || c in ".-_+"
  }

  lemma AllowedIs(c: char)
    ensures Allowed(c) <==> Portable(c)
  {
    LowerLetters(c);
    UpperLetters(c);
    if '0' <= c <= '9' {
      assert "0123456789"[c as int - '0' as int] == c;
    }
    var marks := ".-_+";
    assert marks[0] == '.' && marks[1] == '-' && marks[2] == '_' && marks[3] == '+';
  }

  /** Which error an unsafe segment gets. */
  lemma SegmentErrors(s: string)
    ensures ValidateSegment(s) == Err(EmptySegment) <==> |s| == 0
    ensures ValidateSegment(s) == Err(ReservedSegment(s)) <==> s in [".", ".."]
    ensures ValidateSegment(s) == Err(ForbiddenCharacter(s)) <==> exists c | c in s :: c in ['/', '\\', '\0']
  {
    assert forall c | c in s && c in ['/', '\\', '\0'] :: s != "." && s != "..";
  }

  lemma SegmentPlain(s: string)
    requires IsSegment(s)
    ensures ':' !in s && !IsSpace(s[0]) && !IsSpace(s[|s| - 1])
  {
    assert Allowed(s[0]) && Allowed(s[|s| - 1]);
  }

  lemma DigestPlain(d: string)
    requires IsDigest(d)
    ensures Trim(d) == d && IsSegment(d)
  {
    assert IsLowerHex(d[0]) && IsLowerHex(d[|d| - 1]);
    TrimNothing(d);
  }

  // ----- The directories

  /** For each model directory, its tag files and what they hold. */
  type Dirs = map<string, map<string, string>>

  function Lookup(dirs: Dirs, name: string, tag: string): Option<string>
  {
    if name in dirs && tag in dirs[name] then Some(dirs[name][tag]) else None
  }

  function Put(dirs: Dirs, name: string, tag: string, digest: string): Dirs
  {
    dirs[name := (if name in dirs then dirs[name] else map[])[tag := digest]]
  }

  function Drop(dirs: Dirs, name: string, tag: string): Dirs
  {
    if name in dirs then dirs[name := dirs[name] - {tag}] else dirs
  }

  function Checked(name: string, tag: string): Result<(), TagError>
  {
    match ValidateSegment(name)
    case Err(e) => Err(e)
    case Ok(_) =>
      match ValidateSegment(tag)
      case Err(e) => Err(e)
      case Ok(_) => Ok(())
  }

  function CheckSet(name: string, tag: string, digest: string): Result<(), TagError>
  {
    match Checked(name, tag)
    case Err(e) => Err(e)
    case Ok(_) => if IsDigest(Trim(digest)) then Ok(()) else Err(BadDigest(Trim(digest)))
  }

  function Get(dirs: Dirs, name: string, tag: string): Result<Option<string>, TagError>
  {
    match Checked(name, tag)
    case Err(e) => Err(e)
    case Ok(_) =>
      match Lookup(dirs, name, tag)
      case None => Ok(None)
      case Some(content) => Ok(Some(Trim(content)))
  }

  /** An identifier is a digest as it stands, `name:tag`, or a name that means its latest tag. */
  function Resolve(dirs: Dirs, identifier: string): Result<Option<string>, TagError>
  {
    var id := Trim(identifier);
    if HexDigits(id) then
      if IsDigest(id) then Ok(Some(id)) else Err(BadDigest(id))
    else
      match SplitOnce(id, ':')
      case Some((name, tag)) => Get(dirs, name, tag)
      case None => Get(dirs, id, "latest")
  }

  /** White space around an identifier, around what is stored or around a digest to be stored does not
      matter. */
  lemma PaddingIgnored(dirs: Dirs, before: string, s: string, after: string, name: string, tag: string)
    requires Blank(before) && Blank(after) && s != "" && !IsSpace(s[0]) && !IsSpace(s[|s| - 1])
    ensures Resolve(dirs, before + s + after) == Resolve(dirs, s)
    ensures (IsSegment(name) && IsSegment(tag) && name in dirs && tag in dirs[name] &&
             dirs[name][tag] == before + s + after) ==> Get(dirs, name, tag) == Ok(Some(s))
    ensures IsSegment(name) && IsSegment(tag) && IsDigest(s) ==>
              Lookup(Apply(dirs, Set(name, tag, before + s + after)), name, tag) == Some(s)
  {
    TrimBlank(before, s, after);
    TrimNothing(s);
  }

  datatype ModelTag = ModelTag(name: string, tag: string, digest: string)

  /** By name, then by tag. */
  predicate TagLe(a: ModelTag, b: ModelTag)
  {
    if a.name == b.name then Le(a.tag, b.tag) else Le(a.name, b.name)
  }

  lemma TagLeOrders()
    ensures TotalPreorder(TagLe)
  {
    LeOrders();
    forall a, b, c | TagLe(a, b) && TagLe(b, c) ensures TagLe(a, c) {
      if a.name == c.name && a.name != b.name {
        LeAntisymmetric(a.name, b.name);
      }
    }
  }

  /** The tags of one model, and of all models, in listing order; stops at the first bad name. */
  function OfModel(dirs: Dirs, name: string, tags: seq<string>): Result<seq<ModelTag>, TagError>
    decreases |tags|
  {
    if tags == [] then Ok([])
    else
      match OfModel(dirs, name, tags[..|tags| - 1])
      case Err(e) => Err(e)
      case Ok(found) =>
        var tag := tags[|tags| - 1];
        match Get(dirs, name, tag)
        case Err(e) => Err(e)
        case Ok(None) => Ok(found)
        case Ok(Some(d)) => Ok(found + [ModelTag(name, tag, d)])
  }

  function OfModels(dirs: Dirs, names: seq<string>, tags: string -> seq<string>): Result<seq<ModelTag>, TagError>
    decreases |names|
  {
    if names == [] then Ok([])
    else
      match OfModels(dirs, names[..|names| - 1], tags)
      case Err(e) => Err(e)
      case Ok(found) =>
        var name := names[|names| - 1];
        match OfModel(dirs, name, tags(name))
        case Err(e) => Err(e)
        case Ok(more) => Ok(found + more)
  }

  /** Some listing of every directory. */
  ghost predicate Lists(dirs: Dirs, names: seq<string>, tags: string -> seq<string>)
  {
    Listing(names, dirs.Keys) && forall n | n in dirs :: Listing(tags(n), dirs[n].Keys)
  }

  class TagRegistry {
    var dirs: Dirs

    constructor ()
      ensures dirs == map[]
    {
      dirs := map[];
    }

    method SetTag(name: string, tag: string, digest: string) returns (r: Result<(), TagError>)
      modifies this
      ensures r == CheckSet(name, tag, digest)
      ensures dirs == Apply(old(dirs), Set(name, tag, digest))
    {
      var n := ValidateSegment(name);
      if n.Err? {
        return Err(n.error);
      }
      var t := ValidateSegment(tag);
      if t.Err? {
        return Err(t.error);
      }
      var trimmed := Trim(digest);
      if !IsDigest(trimmed) {
        return Err(BadDigest(trimmed));
      }
      if n.value !in dirs {
        dirs := dirs[n.value := map[]];
      }
      dirs := dirs[n.value := dirs[n.value][t.value := trimmed]];
      return Ok(());
    }

    method GetTag(name: string, tag: string) returns (r: Result<Option<string>, TagError>)
      ensures r == Get(dirs, name, tag)
    {
      var n := ValidateSegment(name);
      if n.Err? {
        return Err(n.error);
      }
      var t := ValidateSegment(tag);
      if t.Err? {
        return Err(t.error);
      }
      if name !in dirs || tag !in dirs[name] {
        return Ok(None);
      }
      return Ok(Some(Trim(dirs[name][tag])));
    }

    method RemoveTag(name: string, tag: string) returns (r: Result<bool, TagError>)
      modifies this
      ensures r.Err? <==> Checked(name, tag).Err?
      ensures r.Ok? ==> (r.value <==> Lookup(old(dirs), name, tag).Some?)
      ensures dirs == Apply(old(dirs), Remove(name, tag))
    {
      var n := ValidateSegment(name);
      if n.Err? {
        return Err(n.error);
      }
      var t := ValidateSegment(tag);
      if t.Err? {
        return Err(t.error);
      }
      if name in dirs && tag in dirs[name] {
        dirs := dirs[name := dirs[name] - {tag}];
        return Ok(true);
      }
      assert name in dirs ==> dirs[name] - {tag} == dirs[name];
      assert name in dirs ==> dirs[name := dirs[name]] == dirs;
      return Ok(false);
    }

    /** Reads the directories in the order they are listed, then sorts. */
    method ListTags(names: seq<string>, tags: string -> seq<string>) returns (r: Result<seq<ModelTag>, TagError>)
      ensures r == match OfModels(dirs, names, tags)
                   case Err(e) => Err(e)
                   case Ok(found) => Ok(Sort(found, TagLe))
    {
      var result: seq<ModelTag> := [];
      for i := 0 to |names|
        invariant OfModels(dirs, names[..i], tags) == Ok(result)
        invariant OfModels(dirs, names[..i], tags).Ok?
      {
        assert names[..i + 1][..i] == names[..i];
        var name := names[i];
        var entries := tags(name);
        var before := result;
        var more: seq<ModelTag> := [];
        for j := 0 to |entries|
          invariant OfModel(dirs, name, entries[..j]) == Ok(more) && result == before + more
        {
          assert entries[..j + 1][..j] == entries[..j];
          var got := GetTag(name, entries[j]);
          if got.Err? {
            ErrStays(dirs, name, entries, j + 1);
            ErrStaysAll(dirs, names, tags, i + 1);
            return Err(got.error);
          }
          if got.value.Some? {
            result := result + [ModelTag(name, entries[j], got.value.value)];
            more := more + [ModelTag(name, entries[j], got.value.value)];
          }
        }
        assert entries[..|entries|] == entries;
      }
      assert names[..|names|] == names;
      return Ok(Sort(result, TagLe));
    }

    method ResolveIdentifier(identifier: string) returns (r: Result<Option<string>, TagError>)
      ensures r == Resolve(dirs, identifier)
    {
      var trimmed := Trim(identifier);
      if HexDigits(trimmed) {
        if !IsDigest(trimmed) {
          return Err(BadDigest(trimmed));
        }
        return Ok(Some(trimmed));
      }
      var parts := SplitOnce(trimmed, ':');
      var (name, tag) := if parts.Some? then parts.value else (trimmed, "latest");
      r := GetTag(name, tag);
    }
  }

  lemma {:induction false} ErrStays(dirs: Dirs, name: string, tags: seq<string>, k: nat)
    requires k <= |tags| && OfModel(dirs, name, tags[..k]).Err?
    ensures OfModel(dirs, name, tags) == OfModel(dirs, name, tags[..k])
    decreases |tags| - k
  {
    if k == |tags| {
      assert tags[..k] == tags;
    } else {
      assert tags[..k + 1][..k] == tags[..k];
      ErrStays(dirs, name, tags, k + 1);
    }
  }

  lemma {:induction false} ErrStaysAll(dirs: Dirs, names: seq<string>, tags: string -> seq<string>, k: nat)
    requires k <= |names| && OfModels(dirs, names[..k], tags).Err?
    ensures OfModels(dirs, names, tags) == OfModels(dirs, names[..k], tags)
    decreases |names| - k
  {
    if k == |names| {
      assert names[..k] == names;
    } else {
      assert names[..k + 1][..k] == names[..k];
      ErrStaysAll(dirs, names, tags, k + 1);
    }
  }

  // ----- Runs

  datatype Op = Set(name: string, tag: string, digest: string) | Remove(name: string, tag: string)

  function Apply(dirs: Dirs, op: Op): Dirs
  {
    match op
    case Set(n, t, d) => if CheckSet(n, t, d).Ok? then Put(dirs, n, t, Trim(d)) else dirs
    case Remove(n, t) => if Checked(n, t).Ok? then Drop(dirs, n, t) else dirs
  }
}
