/** Choosing one file of a repository by its quantization. */
module Select {
  import opened Wrappers
  import opened Strings

  // ----- Substrings

  predicate OccursAt(s: string, q: string, i: nat)
  {
    i + |q| <= |s| && s[i..i + |q|] == q
  }

  /** The first occurrence of `q`. */
  function Find(s: string, q: string): (r: Option<nat>)
    ensures r.Some? ==> OccursAt(s, q, r.value) && forall i: nat | i < r.value :: !OccursAt(s, q, i)
    ensures r.None? ==> forall i: nat :: !OccursAt(s, q, i)
    decreases |s|
  {
    if OccursAt(s, q, 0) then Some(0)
    else if s == [] then None
    else
      ShiftedAll(s, q);
      match Find(s[1..], q)
      case Some(i) => Some(i + 1)
      case None => None
  }

  lemma ShiftedAll(s: string, q: string)
    requires s != []
    ensures forall i: nat | 0 < i :: OccursAt(s, q, i) <==> OccursAt(s[1..], q, i - 1)
  {
    forall i: nat | 0 < i ensures OccursAt(s, q, i) <==> OccursAt(s[1..], q, i - 1) {
      if i + |q| <= |s| {
        assert s[1..][i - 1..i - 1 + |q|] == s[i..i + |q|];
      }
    }
  }

  predicate Contains(s: string, q: string)
  {
    Find(s, q).Some?
  }

  // ----- The three ways a file can match

  predicate IsDelimiter(c: char)
  {
    c == '-' || c == '_' || c == '.'
  }

  predicate StrictlyMatches(file: string, q: string)
  {
    EndsWith(file, "-" + q + ".GGUF") || EndsWith(file, "_" + q + ".GGUF") || EndsWith(file, "." + q + ".GGUF")
  }

  /** F16 is not looked for in a file that names BF16 and nowhere says `-F16`. */
  predicate Guarded(file: string, q: string)
  {
    q == "F16" && Contains(file, "BF16") && !Contains(file, "-F16")
  }

  /** An occurrence with a delimiter or an end of the name on both sides. */
  predicate BoundedAt(file: string, q: string, i: nat)
  {
    && OccursAt(file, q, i)
    && (i == 0 || IsDelimiter(file[i - 1]))
    && (i + |q| == |file| || IsDelimiter(file[i + |q|]))
  }

  ghost predicate Bounded(file: string, q: string)
  {
    exists i: nat :: BoundedAt(file, q, i)
  }

  ghost predicate Delimited(file: string, q: string)
  {
    !Guarded(file, q) && Bounded(file, q)
  }

  predicate LooselyMatches(file: string, q: string)
  {
    !Guarded(file, q) && Contains(file, q)
  }

  /** The search loop. It is complete, overlapping occurrences included; None is the slice out of
      range, which only an empty `q` that is nowhere bounded reaches. */
  method MatchesDelimited(file: string, q: string) returns (r: Option<bool>)
    ensures r.None? <==> q == [] && !Bounded(file, q)
    ensures r.Some? ==> (r.value <==> Delimited(file, q))
  {
    if Guarded(file, q) {
      return Some(false);
    }
    var from := 0;
    while true
      invariant from <= |file| + 1 && (from == |file| + 1 ==> q == [])
      invariant forall i: nat | i < from :: !BoundedAt(file, q, i)
      decreases |file| + 1 - from
    {
      if from > |file| {
        return None;
      }
      var found := Find(file[from..], q);
      match found {
        case None =>
          NoneFurther(file, q, from);
          return Some(false);
        case Some(pos) =>
          var at := from + pos;
          NoneBefore(file, q, from, pos);
          var beforeOk := at == 0 || IsDelimiter(file[at - 1]);
          var afterOk := at + |q| == |file| || IsDelimiter(file[at + |q|]);
          if beforeOk && afterOk {
            assert BoundedAt(file, q, at);
            return Some(true);
          }
          NotBounded(file, q, from, at);
          from := at + 1;
      }
    }
  }

  lemma NotBounded(file: string, q: string, from: nat, at: nat)
    requires from <= at && !BoundedAt(file, q, at)
    requires forall i: nat | i < from :: !BoundedAt(file, q, i)
    requires forall i: nat | from <= i < at :: !OccursAt(file, q, i)
    ensures forall i: nat | i < at + 1 :: !BoundedAt(file, q, i)
  {
  }

  lemma NoneFurther(file: string, q: string, from: nat)
    requires from <= |file| && Find(file[from..], q).None?
    ensures q != [] && forall i: nat | from <= i :: !OccursAt(file, q, i)
  {
    DropOccurs(file, q, from);
    assert !OccursAt(file[from..], q, 0);
    forall i: nat | from <= i ensures !OccursAt(file, q, i) {
      assert !OccursAt(file[from..], q, i - from);
    }
  }

  lemma NoneBefore(file: string, q: string, from: nat, pos: nat)
    requires from <= |file| && Find(file[from..], q) == Some(pos)
    ensures OccursAt(file, q, from + pos) && forall i: nat | from <= i < from + pos :: !OccursAt(file, q, i)
  {
    DropOccurs(file, q, from);
    assert OccursAt(file[from..], q, pos);
    forall i: nat | from <= i < from + pos ensures !OccursAt(file, q, i) {
      assert !OccursAt(file[from..], q, i - from);
    }
  }

  lemma DropOccurs(s: string, q: string, from: nat)
    requires from <= |s|
    ensures forall i: nat | from <= i :: OccursAt(s, q, i) <==> OccursAt(s[from..], q, i - from)
  {
    forall i: nat | from <= i ensures OccursAt(s, q, i) <==> OccursAt(s[from..], q, i - from) {
      if i + |q| <= |s| {
        assert s[from..][i - from..i - from + |q|] == s[i..i + |q|];
      }
    }
  }

  // ----- Tiers

  datatype SelectError = NoFiles | NoMatch | OutOfRange

  ghost function First(files: seq<string>, p: string -> bool): Option<string>
    decreases |files|
  {
    if files == [] then None else if p(files[0]) then Some(files[0]) else First(files[1..], p)
  }

  /** The first file of the first tier that has one. */
  ghost function Best(files: seq<string>, tiers: seq<string -> bool>): Option<string>
    decreases |tiers|
  {
    if tiers == [] then None
    else
      match First(files, tiers[0])
      case Some(f) => Some(f)
      case None => Best(files, tiers[1..])
  }

  ghost function Strict(q: string): string -> bool
  {
    f => StrictlyMatches(Upper(f), q)
  }

  ghost function Delim(q: string): string -> bool
  {
    f => Delimited(Upper(f), q)
  }

  ghost function Loose(q: string): string -> bool
  {
    f => LooselyMatches(Upper(f), q)
  }

  ghost function Named(name: string): string -> bool
  {
    f => f == name
  }

  ghost function Anything(): string -> bool
  {
    f => true
  }

  const PREFERENCES: seq<string> := ["Q4_K_M", "Q4_0", "Q8_0", "F16"]

  ghost function StrictTiers(qs: seq<string>): seq<string -> bool>
  {
    if qs == [] then [] else [Strict(qs[0])] + StrictTiers(qs[1..])
  }

  ghost function DelimTiers(qs: seq<string>): seq<string -> bool>
  {
    if qs == [] then [] else [Delim(qs[0])] + DelimTiers(qs[1..])
  }

  ghost function Tiers(format: string, quant: Option<string>): seq<string -> bool>
  {
    if format == "safetensors" then [Named("model.safetensors"), Anything()]
    else if quant.Some? then var q := Upper(quant.value); [Strict(q), Delim(q), Loose(q)]
    else StrictTiers(PREFERENCES) + (DelimTiers(PREFERENCES) + [Anything()])
  }

  /** A file is chosen iff it is the first of its tier and no earlier tier has any. */
  lemma {:induction false} FirstIs(files: seq<string>, p: string -> bool)
    ensures var r := First(files, p);
            && (r.None? <==> forall i | 0 <= i < |files| :: !p(files[i]))
            && (r.Some? ==> exists i | 0 <= i < |files| ::
                  files[i] == r.value && p(files[i]) && forall j | 0 <= j < i :: !p(files[j]))
    decreases |files|
  {
    if files != [] {
      FirstIs(files[1..], p);
      if p(files[0]) {
        assert files[0] == First(files, p).value;
      } else {
        assert forall i | 0 < i < |files| :: files[i] == files[1..][i - 1];
        if First(files, p).Some? {
          var i :| 0 <= i < |files| - 1 && files[1..][i] == First(files, p).value && p(files[1..][i])
            && forall j | 0 <= j < i :: !p(files[1..][j]);
          assert files[i + 1] == First(files, p).value && forall j | 0 <= j < i + 1 :: !p(files[j]);
        }
      }
    }
  }

  lemma {:induction false} BestIs(files: seq<string>, tiers: seq<string -> bool>) returns (t: nat)
    ensures t <= |tiers|
    ensures forall u | 0 <= u < t :: First(files, tiers[u]).None?
    ensures if t == |tiers| then Best(files, tiers).None?
            else Best(files, tiers).Some? && Best(files, tiers) == First(files, tiers[t])
    decreases |tiers|
  {
    if tiers == [] {
      t := 0;
    } else if First(files, tiers[0]).Some? {
      t := 0;
    } else {
      var t' := BestIs(files, tiers[1..]);
      t := t' + 1;
      assert forall u | 0 < u < t :: tiers[u] == tiers[1..][u - 1];
    }
  }

  ghost function Ranked(files: seq<string>, tiers: seq<string -> bool>): Result<string, SelectError>
  {
    match Best(files, tiers)
    case Some(f) => Ok(f)
    case None => Err(NoMatch)
  }

  /** What the selection comes to: the search loop runs out of range when the quantization is empty,
      nothing matches strictly and the first file has no place bounded on both sides. */
  ghost predicate RunsOut(files: seq<string>, format: string, quant: Option<string>)
  {
    && files != [] && format != "safetensors" && quant == Some("")
    && First(files, Strict("")).None? && !Bounded(Upper(files[0]), "")
  }

  ghost function Choice(files: seq<string>, format: string, quant: Option<string>): Result<string, SelectError>
  {
    if files == [] then Err(NoFiles)
    else if RunsOut(files, format, quant) then Err(OutOfRange)
    else Ranked(files, Tiers(format, quant))
  }

  // ----- The selection as it runs

  method FirstStrict(files: seq<string>, q: string) returns (r: Option<string>)
    ensures r == First(files, Strict(q))
  {
    for i := 0 to |files|
      invariant First(files, Strict(q)) == First(files[i..], Strict(q))
    {
      if StrictlyMatches(Upper(files[i]), q) {
        return Some(files[i]);
      }
    }
    return None;
  }

  /** Err is the slice out of range. */
  method FirstDelimited(files: seq<string>, q: string) returns (r: Result<Option<string>, SelectError>)
    requires files != []
    ensures r == if q == [] && !Bounded(Upper(files[0]), q) then Err(OutOfRange) else Ok(First(files, Delim(q)))
  {
    for i := 0 to |files|
      invariant First(files, Delim(q)) == First(files[i..], Delim(q))
      invariant i > 0 ==> q != []
    {
      var m := MatchesDelimited(Upper(files[i]), q);
      if m.None? {
        return Err(OutOfRange);
      }
      if m.value {
        return Ok(Some(files[i]));
      }
    }
    return Ok(None);
  }

  method FirstLoose(files: seq<string>, q: string) returns (r: Option<string>)
    ensures r == First(files, Loose(q))
  {
    for i := 0 to |files|
      invariant First(files, Loose(q)) == First(files[i..], Loose(q))
    {
      if LooselyMatches(Upper(files[i]), q) {
        return Some(files[i]);
      }
    }
    return None;
  }

  method SelectFile(files: seq<string>, format: string, quant: Option<string>) returns (r: Result<string, SelectError>)
    ensures r == Choice(files, format, quant)
  {
    if |files| == 0 {
      return Err(NoFiles);
    }
    if format == "safetensors" {
      r := SelectSafetensors(files);
    } else if quant.Some? {
      UpperEmpty(quant.value);
      r := SelectQuant(files, Upper(quant.value));
    } else {
      r := SelectPreferred(files);
    }
  }

  lemma UpperEmpty(q: string)
    ensures Upper(q) == "" <==> q == ""
  {
  }

  method SelectSafetensors(files: seq<string>) returns (r: Result<string, SelectError>)
    requires files != []
    ensures r == Ranked(files, [Named("model.safetensors"), Anything()])
  {
    ghost var named := Named("model.safetensors");
    BestCons(files, named, [Anything()]);
    BestCons(files, Anything(), []);
    for i := 0 to |files|
      invariant First(files, named) == First(files[i..], named)
    {
      if files[i] == "model.safetensors" {
        return Ok(files[i]);
      }
    }
    return Ok(files[0]);
  }

  method SelectQuant(files: seq<string>, q: string) returns (r: Result<string, SelectError>)
    requires files != []
    ensures r == if q == "" && First(files, Strict("")).None? && !Bounded(Upper(files[0]), "") then Err(OutOfRange)
                 else Ranked(files, [Strict(q), Delim(q), Loose(q)])
  {
    BestCons(files, Strict(q), [Delim(q), Loose(q)]);
    BestCons(files, Delim(q), [Loose(q)]);
    BestCons(files, Loose(q), []);
    var strict := FirstStrict(files, q);
    if strict.Some? {
      return Ok(strict.value);
    }
    var delimited := FirstDelimited(files, q);
    if delimited.Err? {
      return Err(delimited.error);
    }
    if delimited.value.Some? {
      return Ok(delimited.value.value);
    }
    var loose := FirstLoose(files, q);
    if loose.Some? {
      return Ok(loose.value);
    }
    return Err(NoMatch);
  }

  lemma BestCons(files: seq<string>, p: string -> bool, tiers: seq<string -> bool>)
    ensures Best(files, [p] + tiers) == if First(files, p).Some? then First(files, p) else Best(files, tiers)
    ensures tiers == [] ==> Best(files, [p]) == First(files, p)
  {
    assert ([p] + tiers)[1..] == tiers;
  }

  lemma {:induction false} BestAppend(files: seq<string>, a: seq<string -> bool>, b: seq<string -> bool>)
    ensures Best(files, a + b) == if Best(files, a).Some? then Best(files, a) else Best(files, b)
    decreases |a|
  {
    if a == [] {
      assert a + b == b;
    } else {
      BestAppend(files, a[1..], b);
      assert (a + b)[1..] == a[1..] + b;
    }
  }

  method PreferStrict(files: seq<string>, qs: seq<string>) returns (r: Option<string>)
    ensures r == Best(files, StrictTiers(qs))
  {
    for i := 0 to |qs|
      invariant Best(files, StrictTiers(qs)) == Best(files, StrictTiers(qs[i..]))
    {
      assert qs[i..][1..] == qs[i + 1..];
      BestCons(files, Strict(qs[i]), StrictTiers(qs[i + 1..]));
      r := FirstStrict(files, qs[i]);
      if r.Some? {
        return;
      }
    }
    return None;
  }

  method PreferDelimited(files: seq<string>, qs: seq<string>) returns (r: Option<string>)
    requires files != [] && "" !in qs
    ensures r == Best(files, DelimTiers(qs))
  {
    for i := 0 to |qs|
      invariant Best(files, DelimTiers(qs)) == Best(files, DelimTiers(qs[i..]))
    {
      assert qs[i..][1..] == qs[i + 1..];
      BestCons(files, Delim(qs[i]), DelimTiers(qs[i + 1..]));
      assert qs[i] in qs;
      var found := FirstDelimited(files, qs[i]);
      if found.value.Some? {
        return found.value;
      }
    }
    return None;
  }

  method SelectPreferred(files: seq<string>) returns (r: Result<string, SelectError>)
    requires files != []
    ensures r == Ranked(files, StrictTiers(PREFERENCES) + (DelimTiers(PREFERENCES) + [Anything()]))
  {
    BestAppend(files, StrictTiers(PREFERENCES), DelimTiers(PREFERENCES) + [Anything()]);
    BestAppend(files, DelimTiers(PREFERENCES), [Anything()]);
    BestCons(files, Anything(), []);
    var strict := PreferStrict(files, PREFERENCES);
    if strict.Some? {
      return Ok(strict.value);
    }
    var delimited := PreferDelimited(files, PREFERENCES);
    if delimited.Some? {
      return Ok(delimited.value);
    }
    return Ok(files[0]);
  }

  // ----- What the choice is worth

  /** The place of a suffix, past its first character and before its last five. */
  lemma SuffixOccurs(file: string, d: char, q: string)
    requires IsDelimiter(d) && EndsWith(file, [d] + q + ".GGUF")
    ensures |file| - |q| - 5 > 0 && BoundedAt(file, q, |file| - |q| - 5)
  {
    var suffix, at := [d] + q + ".GGUF", |file| - |q| - 5;
    assert suffix == [d] + (q + ".GGUF");
    assert forall k | 0 <= k < |suffix| :: file[at - 1 + k] == file[|file| - |suffix|..][k] == suffix[k];
    assert file[at..at + |q|] == suffix[1..1 + |q|] == q;
    assert file[at + |q|] == suffix[1 + |q|] == '.';
    assert file[at - 1] == suffix[0];
  }

  /** A strict match is a delimited one unless the guard fires. */
  lemma StrictIsDelimited(file: string, q: string)
    requires StrictlyMatches(file, q)
    ensures Bounded(file, q) && (Delimited(file, q) <==> !Guarded(file, q))
  {
    var d :| d in ['-', '_', '.'] && EndsWith(file, [d] + q + ".GGUF");
    SuffixOccurs(file, d, q);
  }

  /** A delimited match is a loose one. */
  lemma DelimitedIsLoose(file: string, q: string)
    requires Delimited(file, q)
    ensures LooselyMatches(file, q)
  {
    var i: nat :| BoundedAt(file, q, i);
    assert OccursAt(file, q, i);
  }

  lemma BestThree(files: seq<string>, a: string -> bool, b: string -> bool, c: string -> bool)
    ensures Best(files, [a, b, c])
            == if First(files, a).Some? then First(files, a)
               else if First(files, b).Some? then First(files, b) else First(files, c)
  {
    BestCons(files, a, [b, c]);
    BestCons(files, b, [c]);
    BestCons(files, c, []);
  }

  /** The selection fails exactly when no file ends in the quantization, and every file that
      contains it at all is one the guard hides. */
  lemma FailsIff(files: seq<string>, format: string, q: string)
    requires files != [] && format != "safetensors" && q != ""
    ensures Choice(files, format, Some(q)) == Err(NoMatch) <==>
            forall i | 0 <= i < |files| ::
              !StrictlyMatches(Upper(files[i]), Upper(q)) && !LooselyMatches(Upper(files[i]), Upper(q))
  {
    var quant := Upper(q);
    BestThree(files, Strict(quant), Delim(quant), Loose(quant));
    FirstIs(files, Strict(quant));
    FirstIs(files, Delim(quant));
    FirstIs(files, Loose(quant));
    forall i | 0 <= i < |files| && Delimited(Upper(files[i]), quant) ensures LooselyMatches(Upper(files[i]), quant) {
      DelimitedIsLoose(Upper(files[i]), quant);
    }
  }

  /** An F16 that is not the end of BF16. */
  predicate PlainF16At(file: string, i: nat)
  {
    OccursAt(file, "F16", i) && (i == 0 || file[i - 1] != 'B')
  }

  lemma NotAfterB(file: string, i: nat)
    requires OccursAt(file, "F16", i) && forall j: nat :: !OccursAt(file, "BF16", j)
    ensures i == 0 || file[i - 1] != 'B'
  {
    if i > 0 {
      assert file[i - 1..i + 3] == [file[i - 1]] + file[i..i + 3];
      assert !OccursAt(file, "BF16", i - 1);
    }
  }

  lemma PlainF16(file: string)
    requires StrictlyMatches(file, "F16") || Delimited(file, "F16") || LooselyMatches(file, "F16")
    ensures exists i: nat :: PlainF16At(file, i)
  {
    if StrictlyMatches(file, "F16") {
      StrictIsDelimited(file, "F16");
    }
    if Bounded(file, "F16") {
      var i: nat :| BoundedAt(file, "F16", i);
      assert PlainF16At(file, i);
    } else if Contains(file, "-F16") {
      var i := Find(file, "-F16").value;
      assert file[i..i + 4] == "-F16";
      assert file[i + 1..i + 4] == file[i..i + 4][1..] == "F16";
      assert file[i] == file[i..i + 4][0] == '-';
      assert PlainF16At(file, i + 1);
    } else {
      var i := Find(file, "F16").value;
      assert !Contains(file, "BF16");
      NotAfterB(file, i);
      assert PlainF16At(file, i);
    }
  }

  /** Asking for F16 never yields a file that has only BF16. */
  lemma F16IsNotBf16(files: seq<string>, format: string, q: string)
    requires format != "safetensors" && Upper(q) == "F16" && Choice(files, format, Some(q)).Ok?
    ensures var f := Choice(files, format, Some(q)).value;
            f in files && exists i: nat :: PlainF16At(Upper(f), i)
  {
    var quant := Upper(q);
    BestThree(files, Strict(quant), Delim(quant), Loose(quant));
    FirstIs(files, Strict(quant));
    FirstIs(files, Delim(quant));
    FirstIs(files, Loose(quant));
    PlainF16(Upper(Choice(files, format, Some(q)).value));
  }

  lemma NoDashF16(file: string)
    requires forall i | 0 <= i < |file| - 1 && file[i] == '-' :: file[i + 1] != 'F'
    ensures !Contains(file, "-F16")
  {
    forall i: nat | i + 4 <= |file| ensures !OccursAt(file, "-F16", i) {
      var part := file[i..i + 4];
      assert part[0] == file[i] && part[1] == file[i + 1];
    }
  }

  lemma NotStrict(file: string)
    requires |file| >= 9 && !IsDelimiter(file[|file| - 9])
    ensures !StrictlyMatches(file, "F16")
  {
    assert file[|file| - 9..][0] == file[|file| - 9];
  }

  /** Where the guard fires, only a strict match is found, bounded or not. */
  lemma GuardedFails(file: string)
    requires Guarded(Upper(file), "F16") && !StrictlyMatches(Upper(file), "F16")
    ensures Choice([file], "gguf", Some("F16")) == Err(NoMatch)
  {
    assert Upper("F16") == "F16";
    FailsIff([file], "gguf", "F16");
  }

  lemma HasBf16(file: string)
    requires |file| >= 6 && file[2] == 'B' && file[3] == 'F' && file[4] == '1' && file[5] == '6'
    ensures Contains(file, "BF16")
  {
    assert file[2..2 + 4] == ['B', 'F', '1', '6'];
    assert OccursAt(file, "BF16", 2);
  }

  lemma Hides(file: string)
    requires |file| == 17 && file[2] == 'B' && file[3] == 'F' && file[4] == '1' && file[5] == '6'
    requires file[6] == '_' && file[7] == 'F' && file[8] == '1' && file[9] == '6' && file[10] == '-'
    requires forall i | 0 <= i < |file| :: !('a' <= file[i] <= 'z')
    requires forall i | 0 <= i < |file| - 1 && file[i] == '-' :: file[i + 1] != 'F'
    ensures Bounded(Upper(file), "F16") && Choice([file], "gguf", Some("F16")) == Err(NoMatch)
  {
    assert Upper(file) == file;
    assert file[7..7 + 3] == ['F', '1', '6'];
    assert BoundedAt(file, "F16", 7);
    HasBf16(file);
    NoDashF16(file);
    NotStrict(file);
    GuardedFails(file);
  }

  /** The guard looks for `-F16` only, so it also hides an F16 set off by another delimiter. */
  lemma GuardHidesF16() returns (file: string)
    ensures file == "M-BF16_F16-1.GGUF"
    ensures Bounded(Upper(file), "F16") && Choice([file], "gguf", Some("F16")) == Err(NoMatch)
  {
    file := "M-BF16_F16-1.GGUF";
    Hides(file);
  }
}
