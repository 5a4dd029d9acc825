/** Registering a model: an identifier and a digest in any accepted spelling become one tag. */
module Register {
  import opened Wrappers
  import opened Strings
  import opened Digests
  import opened CasNames
  import opened Tags
  import opened TagProperties

  // ----- Digests in any accepted spelling

  const COLON_PREFIX: string := "sha256:"

  function WithoutPrefix(s: string): string
  {
    match StripPrefix(s, COLON_PREFIX)
    case Some(rest) => rest
    case None =>
      match StripPrefix(s, FLAT_PREFIX)
      case Some(rest) => rest
      case None => s
  }

  function WithoutSuffix(s: string): string
  {
    match StripSuffix(s, GGUF_SUFFIX)
    case Some(rest) => rest
    case None =>
      match StripSuffix(s, SAFETENSORS_SUFFIX)
      case Some(rest) => rest
      case None => s
  }

  /** The canonical form of a digest parameter. */
  function Normalise(s: string): string
  {
    Lower(WithoutSuffix(WithoutPrefix(s)))
  }

  predicate IsPrefix(s: string)
  {
    s == "" || s == "sha256:" || s == "sha256-"
  }

  predicate IsSuffix(s: string)
  {
    s == "" || s == ".gguf" || s == ".safetensors"
  }

  lemma PrefixStrips(prefix: string, rest: string)
    requires IsPrefix(prefix) && rest != "" && rest[0] != 's'
    ensures WithoutPrefix(prefix + rest) == rest
  {
    StripsOff(prefix, rest, "");
    var s := prefix + rest;
    if prefix == "" {
      assert s == rest;
      assert s[0] != COLON_PREFIX[0] && s[0] != FLAT_PREFIX[0];
    } else {
      assert s[6] == prefix[6];
      assert prefix == FLAT_PREFIX ==> s[..7][6] != COLON_PREFIX[6];
    }
  }

  lemma SuffixStrips(x: string, suffix: string)
    requires IsSuffix(suffix) && '.' !in x
    ensures WithoutSuffix(x + suffix) == x
  {
    StripsOff("", x, suffix);
    var s := x + suffix;
    if suffix == "" {
      assert s == x;
      NoSuffix(x, GGUF_SUFFIX);
      NoSuffix(x, SAFETENSORS_SUFFIX);
    } else if suffix == SAFETENSORS_SUFFIX {
      assert s[|s| - 1] == 's' && GGUF_SUFFIX[4] == 'f';
    }
  }

  lemma NoSuffix(x: string, suffix: string)
    requires '.' !in x && suffix != "" && suffix[0] == '.'
    ensures StripSuffix(x, suffix).None?
  {
    if |suffix| <= |x| {
      assert x[|x| - |suffix|] == x[|x| - |suffix|..][0];
    }
  }

  /** Every accepted spelling of a digest comes out in the one canonical form. */
  lemma SpellingsNormalise(prefix: string, x: string, suffix: string)
    requires IsPrefix(prefix) && HexDigits(x) && IsSuffix(suffix)
    ensures Normalise(prefix + x + suffix) == Lower(x) && IsDigest(Lower(x))
  {
    HexLowers(x);
    assert IsHex(x[0]);
    assert forall i | 0 <= i < |x| :: IsHex(x[i]);
    assert prefix + x + suffix == prefix + (x + suffix);
    PrefixStrips(prefix, x + suffix);
    SuffixStrips(x, suffix);
  }

  ghost predicate Spells(s: string, prefix: string, x: string, suffix: string)
  {
    IsPrefix(prefix) && HexDigits(x) && IsSuffix(suffix) && s == prefix + x + suffix
  }

  lemma ReadsAs(s: string) returns (prefix: string, x: string, suffix: string)
    requires IsDigest(Normalise(s))
    ensures Spells(s, prefix, x, suffix)
  {
    prefix := PrefixOf(s);
    suffix := SuffixOf(WithoutPrefix(s));
    x := WithoutSuffix(WithoutPrefix(s));
    HexLowers(x);
    Glue(prefix, x, suffix);
  }

  lemma Glue(a: string, b: string, c: string)
    ensures a + (b + c) == a + b + c
  {
  }

  /** These are the only accepted spellings. */
  lemma AcceptedIffSpelled(s: string)
    ensures IsDigest(Normalise(s)) <==> exists prefix, x, suffix :: Spells(s, prefix, x, suffix)
  {
    if IsDigest(Normalise(s)) {
      var prefix, x, suffix := ReadsAs(s);
    }
    forall prefix, x, suffix | Spells(s, prefix, x, suffix) ensures IsDigest(Normalise(s)) {
      SpellingsNormalise(prefix, x, suffix);
    }
  }

  lemma PrefixOf(s: string) returns (prefix: string)
    ensures IsPrefix(prefix) && s == prefix + WithoutPrefix(s)
  {
    prefix := if StartsWith(s, COLON_PREFIX) then COLON_PREFIX
              else if StartsWith(s, FLAT_PREFIX) then FLAT_PREFIX
              else "";
  }

  lemma SuffixOf(s: string) returns (suffix: string)
    ensures IsSuffix(suffix) && s == WithoutSuffix(s) + suffix
  {
    suffix := if EndsWith(s, GGUF_SUFFIX) then GGUF_SUFFIX
              else if EndsWith(s, SAFETENSORS_SUFFIX) then SAFETENSORS_SUFFIX
              else "";
  }

  // ----- The call

  /** What opening and inspecting the blob of a digest gives. */
  datatype Inspection =
    | NoBlob
    | Refused(reason: string)
    | SafeTensors(metadata: string)
    | Gguf(metadata: string)

  /** What the store says about a digest. */
  datatype Store = Store(inspect: string -> Inspection, size: string -> nat, pinned: string -> bool)

  datatype Reply =
    | InvalidIdentifier
    | InvalidTag
    | InvalidDigest
    | NoSuchModel(id: string)
    | OperationFailed
    | SecurityRejection(reason: string)
    | Entry(name: string, tag: string, digest: string, size: nat, pinned: bool, format: string, metadata: string)

  /** The name and tag meant; None when there is no identifier. */
  function Identify(id: Option<string>, tag: Option<string>): Option<(string, string)>
  {
    if id.None? || Trim(id.value) == "" then None
    else
      var s := Trim(id.value);
      match (tag, SplitOnce(s, ':'))
      case (Some(t), Some((n, _))) => Some((n, Trim(t)))
      case (Some(t), None) => Some((s, Trim(t)))
      case (None, Some((n, t))) => Some((n, t))
      case (None, None) => Some((s, "latest"))
  }

  /** `s` is the name `n`, alone or with anything behind a colon. */
  ghost predicate NameOf(s: string, n: string)
  {
    ':' !in n && (s == n || exists rest :: s == n + [':'] + rest)
  }

  /** What is meant, without saying how it is found. A tag parameter decides the tag, trimmed, and
      the identifier only the name, whatever tag it carries itself; without a parameter the tag is
      what follows the first colon, or the latest. Nothing but white space is no identifier. */
  lemma IdentifyIff(id: Option<string>, tag: Option<string>, n: string, v: string)
    ensures Identify(id, tag) == Some((n, v)) <==>
            && id.Some? && Trim(id.value) != "" && NameOf(Trim(id.value), n)
            && match tag
               case Some(t) => v == Trim(t)
               case None => Trim(id.value) == n + [':'] + v || (Trim(id.value) == n && v == "latest")
  {
    if id.Some? && Trim(id.value) != "" {
      SplitIff(Trim(id.value), n, v);
    }
  }

  /** The first colon splits a string in one way only. */
  lemma SplitIff(s: string, n: string, v: string)
    ensures SplitOnce(s, ':') == Some((n, v)) <==> ':' !in n && s == n + [':'] + v
    ensures NameOf(s, n) <==> match SplitOnce(s, ':') case None => s == n case Some((a, _)) => a == n
  {
    if ':' !in n && s == n + [':'] + v {
      SplitsThere(n, ':', v);
    }
    if rest :| ':' !in n && s == n + [':'] + rest {
      SplitsThere(n, ':', rest);
    }
    var split := SplitOnce(s, ':');
    if split.Some? {
      assert s[|split.value.0|] == ':';
    }
  }

  /** The digest meant: the parameter, or what the tag already names. */
  function Candidate(dirs: Dirs, name: string, tag: string, digest: Option<string>): Result<Option<string>, TagError>
  {
    match digest
    case Some(d) => Ok(Some(Trim(d)))
    case None => Resolve(dirs, name + [':'] + tag)
  }

  /** The reply once the tag is written. */
  function Describe(store: Store, name: string, tag: string, d: string): Reply
  {
    match store.inspect(d)
    case NoBlob => Entry(name, tag, d, store.size(d), store.pinned(d), "gguf", "Digest: " + d)
    case Refused(reason) => SecurityRejection(reason)
    case SafeTensors(m) => Entry(name, tag, d, store.size(d), store.pinned(d), "safetensors", m)
    case Gguf(m) => Entry(name, tag, d, store.size(d), store.pinned(d), "gguf", m)
  }

  /** The reply is an entry unless the blob was refused. It carries what was registered, what the store
      says of its size and its pin, and the format and metadata of the blob, or GGUF and the digest
      when there is no blob. */
  lemma DescribeIs(store: Store, name: string, tag: string, d: string)
    ensures var r, found := Describe(store, name, tag, d), store.inspect(d);
            if found.Refused? then r == SecurityRejection(found.reason)
            else
              && r.Entry? && r.name == name && r.tag == tag && r.digest == d
              && r.size == store.size(d) && r.pinned == store.pinned(d)
              && (r.format == "safetensors" <==> found.SafeTensors?) && (r.format == "gguf" <==> !found.SafeTensors?)
              && r.metadata == (if found.NoBlob? then "Digest: " + d else found.metadata)
  {
    assert "gguf"[0] != "safetensors"[0];
  }

  /** The call names a safe tag and a digest: what it writes. */
  function Accepted(dirs: Dirs, id: Option<string>, tag: Option<string>, digest: Option<string>):
    Option<(string, string, string)>
  {
    match Identify(id, tag)
    case None => None
    case Some((n, t)) =>
      if Checked(n, t).Err? then None
      else
        match Candidate(dirs, n, t, digest)
        case Ok(Some(c)) => if IsDigest(Normalise(c)) then Some((n, t, Normalise(c))) else None
        case _ => None
  }

  /** The identifier and the tag parameter, split. */
  method Target(id: Option<string>, tag: Option<string>) returns (r: Option<(string, string)>)
    ensures r == Identify(id, tag)
  {
    if id.None? || Trim(id.value) == "" {
      return None;
    }
    var s := Trim(id.value);
    var split := SplitOnce(s, ':');
    if tag.Some? {
      var name := if split.Some? then split.value.0 else s;
      return Some((name, Trim(tag.value)));
    }
    return if split.Some? then split else Some((s, "latest"));
  }

  method Canonical(candidate: string) returns (d: string)
    ensures d == Normalise(candidate)
  {
    d := candidate;
    if StartsWith(d, COLON_PREFIX) {
      d := d[|COLON_PREFIX|..];
    } else if StartsWith(d, FLAT_PREFIX) {
      d := d[|FLAT_PREFIX|..];
    }
    if EndsWith(d, GGUF_SUFFIX) {
      d := d[..|d| - |GGUF_SUFFIX|];
    } else if EndsWith(d, SAFETENSORS_SUFFIX) {
      d := d[..|d| - |SAFETENSORS_SUFFIX|];
    }
    d := Lower(d);
  }

  /** Inspects the blob and builds the entry. */
  method Inspect(store: Store, name: string, tag: string, d: string) returns (reply: Reply)
    ensures reply == Describe(store, name, tag, d)
  {
    var format, metadata := "gguf", "Digest: " + d;
    match store.inspect(d) {
      case NoBlob =>
      case Refused(reason) =>
        return SecurityRejection(reason);
      case SafeTensors(m) =>
        format, metadata := "safetensors", m;
      case Gguf(m) =>
        format, metadata := "gguf", m;
    }
    return Entry(name, tag, d, store.size(d), store.pinned(d), format, metadata);
  }

  /** The reply to a call that writes nothing. */
  function Refusal(dirs: Dirs, id: Option<string>, tag: Option<string>, digest: Option<string>): Reply
  {
    match Identify(id, tag)
    case None => InvalidIdentifier
    case Some((n, t)) =>
      if !IsSegment(n) then InvalidIdentifier
      else if !IsSegment(t) then InvalidTag
      else if digest.None? && Lookup(dirs, n, t).None? then NoSuchModel(n + [':'] + t)
      else InvalidDigest
  }

  /** A refused call changes nothing; an accepted one sets exactly its tag, before the blob is
      inspected, so also when that ends in a security rejection. */
  method HandleRegister(registry: TagRegistry, store: Store, id: Option<string>, tag: Option<string>,
                        digest: Option<string>)
    returns (reply: Reply)
    modifies registry
    ensures var written := Accepted(old(registry.dirs), id, tag, digest);
            && (written.None? ==>
                  registry.dirs == old(registry.dirs) && reply == Refusal(old(registry.dirs), id, tag, digest))
            && (written.Some? ==>
                  && registry.dirs == Apply(old(registry.dirs), Set(written.value.0, written.value.1, written.value.2))
                  && reply == Describe(store, written.value.0, written.value.1, written.value.2))
  {
    var target := Target(id, tag);
    if target.None? {
      return InvalidIdentifier;
    }
    var (name, variant) := target.value;
    if ValidateSegment(name).Err? {
      return InvalidIdentifier;
    }
    if ValidateSegment(variant).Err? {
      return InvalidTag;
    }
    assert Checked(name, variant).Ok?;
    var candidate: string;
    if digest.Some? {
      candidate := Trim(digest.value);
    } else {
      ResolveName(registry.dirs, name, variant);
      var known := registry.ResolveIdentifier(name + [':'] + variant);
      if known.Err? {
        return InvalidIdentifier;
      }
      if known.value.None? {
        return NoSuchModel(name + [':'] + variant);
      }
      candidate := known.value.value;
    }
    assert Candidate(registry.dirs, name, variant, digest) == Ok(Some(candidate));
    var clean := Canonical(candidate);
    if !IsDigest(clean) {
      return InvalidDigest;
    }
    DigestPlain(clean);
    var wrote := registry.SetTag(name, variant, clean);
    if wrote.Err? {
      return OperationFailed;
    }
    reply := Inspect(store, name, variant, clean);
  }

  /** Why a call is refused: no identifier, an unsafe name, an unsafe tag, a tag that is to be looked up
      and is not there, or a digest in no accepted spelling. */
  lemma RefusalIs(dirs: Dirs, id: Option<string>, tag: Option<string>, digest: Option<string>, n: string, t: string)
    ensures id.None? || Blank(id.value) ==> Refusal(dirs, id, tag, digest) == InvalidIdentifier
    ensures Identify(id, tag) == Some((n, t)) ==>
            && (!IsSegment(n) ==> Refusal(dirs, id, tag, digest) == InvalidIdentifier)
            && (IsSegment(n) && !IsSegment(t) ==> Refusal(dirs, id, tag, digest) == InvalidTag)
            && (IsSegment(n) && IsSegment(t) && digest.None? && (n !in dirs || t !in dirs[n]) ==>
                  Refusal(dirs, id, tag, digest) == NoSuchModel(n + ":" + t))
            && (IsSegment(n) && IsSegment(t) && digest.Some? ==> Refusal(dirs, id, tag, digest) == InvalidDigest)
  {
    if id.Some? && Blank(id.value) {
      BlankTrims(id.value);
    }
  }

  // ----- What a registration is worth

  /** Whatever was registered resolves to its digest afterwards, even when the reply is a refusal. */
  lemma RegisteredResolves(dirs: Dirs, id: Option<string>, tag: Option<string>, digest: Option<string>)
    requires Accepted(dirs, id, tag, digest).Some?
    ensures var (n, t, d) := Accepted(dirs, id, tag, digest).value;
            Resolve(Apply(dirs, Set(n, t, d)), n + [':'] + t) == Ok(Some(d)) && IsDigest(d)
  {
    var (n, t, d) := Accepted(dirs, id, tag, digest).value;
    DigestPlain(d);
    ResolveName(Apply(dirs, Set(n, t, d)), n, t);
  }

  /** Any spelling of a digest, padded or not, registers its canonical form under `name:tag`. */
  lemma AnySpellingRegisters(dirs: Dirs, name: string, tag: string, before: string, prefix: string, x: string,
      suffix: string, after: string)
    requires IsSegment(name) && IsSegment(tag) && Blank(before) && Blank(after)
    requires IsPrefix(prefix) && HexDigits(x) && IsSuffix(suffix)
    ensures Accepted(dirs, Some(name + [':'] + tag), None, Some(before + (prefix + x + suffix) + after))
            == Some((name, tag, Lower(x)))
  {
    var d := prefix + x + suffix;
    IdentifyPair(name, tag);
    PlainEnds(prefix, x, suffix);
    TrimBlank(before, d, after);
    SpellingsNormalise(prefix, x, suffix);
  }

  lemma IdentifyPair(name: string, tag: string)
    requires IsSegment(name) && IsSegment(tag)
    ensures Identify(Some(name + [':'] + tag), None) == Some((name, tag)) && Checked(name, tag).Ok?
  {
    SegmentPlain(name);
    SegmentPlain(tag);
    TrimNothing(name + [':'] + tag);
    SplitsThere(name, ':', tag);
  }

  /** With a tag parameter the same goes for that tag, whatever tag the identifier itself carries. */
  lemma TagParameterRegisters(dirs: Dirs, id: string, name: string, pad: string, tag: string, pad': string,
      prefix: string, x: string, suffix: string)
    requires IsSegment(name) && IsSegment(tag) && Blank(pad) && Blank(pad')
    requires NameOf(Trim(id), name)
    requires IsPrefix(prefix) && HexDigits(x) && IsSuffix(suffix)
    ensures Accepted(dirs, Some(id), Some(pad + tag + pad'), Some(prefix + x + suffix)) == Some((name, tag, Lower(x)))
  {
    SegmentPlain(tag);
    TrimBlank(pad, tag, pad');
    IdentifyIff(Some(id), Some(pad + tag + pad'), name, tag);
    PlainEnds(prefix, x, suffix);
    TrimNothing(prefix + x + suffix);
    SpellingsNormalise(prefix, x, suffix);
  }

  lemma PlainEnds(prefix: string, x: string, suffix: string)
    requires IsPrefix(prefix) && HexDigits(x) && IsSuffix(suffix)
    ensures var d := prefix + x + suffix; d != "" && !IsSpace(d[0]) && !IsSpace(d[|d| - 1])
  {
    var d := prefix + x + suffix;
    assert IsHex(x[0]) && IsHex(x[63]);
    assert d[0] == if prefix == "" then x[0] else prefix[0];
    assert d[|d| - 1] == if suffix == "" then x[63] else suffix[|suffix| - 1];
  }

  /** Registering a known tag again without a digest changes nothing. */
  lemma ReRegistering(dirs: Dirs, id: Option<string>, tag: Option<string>)
    requires Valid(View(dirs)) && Accepted(dirs, id, tag, None).Some?
    ensures var (n, t, d) := Accepted(dirs, id, tag, None).value;
            Resolve(dirs, n + [':'] + t) == Ok(Some(d)) && Apply(dirs, Set(n, t, d)) == dirs
  {
    var (n, t, d) := Accepted(dirs, id, tag, None).value;
    ResolveName(dirs, n, t);
    ViewIs(dirs, Key(n, t));
    var stored := dirs[n][t];
    DigestPlain(stored);
    DigestNormal(stored);
    assert dirs[n][t := stored] == dirs[n];
    assert dirs[n := dirs[n]] == dirs;
  }

  /** A digest is its own canonical form. */
  lemma DigestNormal(d: string)
    requires IsDigest(d)
    ensures Normalise(d) == d
  {
    forall i | 0 <= i < |d| ensures IsHex(d[i]) && LowerChar(d[i]) == d[i] {
      assert IsLowerHex(d[i]);
    }
    assert Lower(d) == d;
    assert "" + d + "" == d;
    SpellingsNormalise("", d, "");
  }
}
