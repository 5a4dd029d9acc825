/** Which file is chosen, said in terms of the file names alone: the four preferred quantizations by
    name, the three ways a name can carry one, and the order in which they are tried. */
module SelectChoice {
  import opened Wrappers
  import opened Strings
  import opened Select

  ghost predicate Parts(s: string, a: string, q: string, b: string)
  {
    s == a + q + b
  }

  /** The name, in capitals, ends in `q` behind a dash, an underscore or a dot, and `.GGUF`. */
  ghost predicate EndsIn(file: string, q: string)
  {
    exists stem, d :: (d == "-" || d == "_" || d == ".") && Parts(Upper(file), stem, d + q, ".GGUF")
  }

  ghost predicate Mentions(file: string, q: string)
  {
    exists a, b :: Parts(Upper(file), a, q, b)
  }

  predicate Mark(c: char)
  {
    c == '-' || c == '_' || c == '.'
  }

  ghost predicate MarkedParts(s: string, a: string, q: string, b: string)
  {
    Parts(s, a, q, b) && (a == "" || Mark(a[|a| - 1])) && (b == "" || Mark(b[0]))
  }

  /** The name, in capitals, has `q` with one of the three marks, or nothing, on either side. */
  ghost predicate SetsOff(file: string, q: string)
  {
    exists a, b :: MarkedParts(Upper(file), a, q, b)
  }

  /** F16 is not looked for in a name that has BF16 and nowhere -F16. */
  ghost predicate Hidden(file: string, q: string)
  {
    q == "F16" && Mentions(file, "BF16") && !Mentions(file, "-F16")
  }

  ghost function Ending(q: string): string -> bool
  {
    file => EndsIn(file, q)
  }

  ghost function Apart(q: string): string -> bool
  {
    file => SetsOff(file, q) && !Hidden(file, q)
  }

  ghost function Within(q: string): string -> bool
  {
    file => Mentions(file, q) && !Hidden(file, q)
  }

  // ----- The tests of the selection are these

  lemma OccursIs(s: string, q: string, i: nat)
    ensures OccursAt(s, q, i) <==> i + |q| <= |s| && Parts(s, s[..i], q, s[i + |q|..])
  {
    if i + |q| <= |s| {
      assert s == s[..i] + s[i..i + |q|] + s[i + |q|..];
      if Parts(s, s[..i], q, s[i + |q|..]) {
        assert s[i..i + |q|] == (s[..i] + q + s[i + |q|..])[i..i + |q|] == q;
      }
    }
  }

  lemma PartsOccur(s: string, a: string, q: string, b: string)
    requires Parts(s, a, q, b)
    ensures OccursAt(s, q, |a|) && s[..|a|] == a && s[|a| + |q|..] == b
  {
    assert s[|a|..|a| + |q|] == q;
  }

  lemma ContainsIs(file: string, q: string)
    ensures Contains(Upper(file), q) <==> Mentions(file, q)
  {
    var s := Upper(file);
    if Contains(s, q) {
      OccursIs(s, q, Find(s, q).value);
    }
    forall a, b | Parts(s, a, q, b) ensures Contains(s, q) {
      PartsOccur(s, a, q, b);
    }
  }

  lemma HiddenIs(file: string, q: string)
    ensures Guarded(Upper(file), q) <==> Hidden(file, q)
  {
    ContainsIs(file, "BF16");
    ContainsIs(file, "-F16");
  }

  lemma LooseIs(file: string, q: string)
    ensures Loose(q)(file) <==> Within(q)(file)
  {
    ContainsIs(file, q);
    HiddenIs(file, q);
  }

  lemma BoundedParts(s: string, q: string, i: nat)
    requires BoundedAt(s, q, i)
    ensures MarkedParts(s, s[..i], q, s[i + |q|..])
  {
    OccursIs(s, q, i);
    assert i > 0 ==> s[..i][i - 1] == s[i - 1];
    assert i + |q| < |s| ==> s[i + |q|..][0] == s[i + |q|];
  }

  lemma PartsBounded(s: string, a: string, q: string, b: string)
    requires MarkedParts(s, a, q, b)
    ensures BoundedAt(s, q, |a|)
  {
    PartsOccur(s, a, q, b);
    assert a != "" ==> s[|a| - 1] == a[|a| - 1];
    assert b != "" ==> s[|a| + |q|] == b[0];
  }

  lemma BoundedIs(file: string, q: string)
    ensures Bounded(Upper(file), q) <==> SetsOff(file, q)
  {
    var s := Upper(file);
    if i: nat :| BoundedAt(s, q, i) {
      BoundedParts(s, q, i);
    }
    if a, b :| MarkedParts(s, a, q, b) {
      PartsBounded(s, a, q, b);
    }
  }

  lemma DelimIs(file: string, q: string)
    ensures Delim(q)(file) <==> Apart(q)(file)
  {
    BoundedIs(file, q);
    HiddenIs(file, q);
  }

  lemma StrictIs(file: string, q: string)
    ensures Strict(q)(file) <==> Ending(q)(file)
  {
    var s := Upper(file);
    forall d | d == "-" || d == "_" || d == "."
      ensures EndsWith(s, d + q + ".GGUF") <==> exists stem :: Parts(s, stem, d + q, ".GGUF")
    {
      SuffixIs(s, d + q, ".GGUF");
    }
  }

  lemma SuffixIs(s: string, q: string, end: string)
    ensures EndsWith(s, q + end) <==> exists stem :: Parts(s, stem, q, end)
  {
    if EndsWith(s, q + end) {
      var stem := s[..|s| - |q + end|];
      assert s == stem + (q + end) == stem + q + end;
      assert Parts(s, stem, q, end);
    }
    forall stem | Parts(s, stem, q, end) ensures EndsWith(s, q + end) {
      assert s == stem + (q + end);
      assert s[|stem|..] == q + end;
    }
  }

  // ----- The choice

  ghost predicate FirstAt(files: seq<string>, p: string -> bool, i: nat)
  {
    i < |files| && p(files[i]) && forall j | 0 <= j < i :: !p(files[j])
  }

  /** `f` is the first file that passes the test. */
  ghost predicate IsFirst(files: seq<string>, p: string -> bool, f: string)
  {
    exists i: nat :: FirstAt(files, p, i) && files[i] == f
  }

  ghost predicate Nobody(files: seq<string>, p: string -> bool)
  {
    forall i | 0 <= i < |files| :: !p(files[i])
  }

  /** `f` is the first file that passes the first test any file passes. */
  ghost predicate ChosenBy(files: seq<string>, tests: seq<string -> bool>, f: string)
  {
    exists t | 0 <= t < |tests| :: IsFirst(files, tests[t], f) && forall u | 0 <= u < t :: Nobody(files, tests[u])
  }

  lemma RankedIs(files: seq<string>, tiers: seq<string -> bool>)
    ensures match Ranked(files, tiers)
            case Ok(f) => ChosenBy(files, tiers, f)
            case Err(e) => e == NoMatch && forall t | 0 <= t < |tiers| :: Nobody(files, tiers[t])
  {
    var t := BestIs(files, tiers);
    forall u | 0 <= u < t ensures Nobody(files, tiers[u]) {
      FirstIs(files, tiers[u]);
    }
    if t < |tiers| {
      FirstIs(files, tiers[t]);
      var r := First(files, tiers[t]);
      var i :| 0 <= i < |files| && files[i] == r.value && tiers[t](files[i])
        && forall j | 0 <= j < i :: !tiers[t](files[j]);
      assert FirstAt(files, tiers[t], i);
    }
  }

  lemma SameFirst(files: seq<string>, p: string -> bool, q: string -> bool)
    requires forall f | f in files :: p(f) == q(f)
    ensures Nobody(files, p) == Nobody(files, q)
    ensures forall f :: IsFirst(files, p, f) ==> IsFirst(files, q, f)
  {
    forall i: nat | i < |files| ensures p(files[i]) == q(files[i]) && (FirstAt(files, p, i) ==> FirstAt(files, q, i)) {
      assert forall j | 0 <= j <= i :: files[j] in files;
    }
  }

  lemma SameTests(files: seq<string>, a: seq<string -> bool>, b: seq<string -> bool>)
    requires |a| == |b| && forall t, f | 0 <= t < |a| && f in files :: a[t](f) == b[t](f)
    ensures forall f :: ChosenBy(files, a, f) ==> ChosenBy(files, b, f)
    ensures forall t | 0 <= t < |a| :: Nobody(files, a[t]) == Nobody(files, b[t])
  {
    forall t | 0 <= t < |a|
      ensures Nobody(files, a[t]) == Nobody(files, b[t])
      ensures forall f :: IsFirst(files, a[t], f) ==> IsFirst(files, b[t], f)
    {
      SameFirst(files, a[t], b[t]);
    }
  }

  // ----- With a quantization

  /** The tests behind a quantization: it ends the name, it is set off, it is somewhere. */
  ghost function AskedTests(q: string): seq<string -> bool>
  {
    [Ending(q), Apart(q), Within(q)]
  }

  ghost function AskedTiers(q: string): (tiers: seq<string -> bool>)
    ensures |tiers| == 3
  {
    [Strict(q), Delim(q), Loose(q)]
  }

  lemma AskedSame(q: string, t: nat, f: string)
    requires t < 3
    ensures AskedTiers(q)[t](f) == AskedTests(q)[t](f)
  {
    if t == 0 {
      StrictIs(f, q);
    } else if t == 1 {
      DelimIs(f, q);
    } else {
      LooseIs(f, q);
    }
  }

  lemma AskedRanked(files: seq<string>, q: string)
    ensures match Ranked(files, AskedTiers(q))
            case Ok(f) => ChosenBy(files, AskedTests(q), f)
            case Err(e) => e == NoMatch && forall t | 0 <= t < 3 :: Nobody(files, AskedTests(q)[t])
  {
    var tiers := AskedTiers(q);
    RankedIs(files, tiers);
    forall t, f | 0 <= t < 3 && f in files ensures tiers[t](f) == AskedTests(q)[t](f) {
      AskedSame(q, t, f);
    }
    SameTests(files, tiers, AskedTests(q));
  }

  /** The search runs out of range: nothing is asked for, no name ends in nothing, and the first name
      has no place without marks around it. */
  ghost predicate OutOfNames(files: seq<string>, q: string)
  {
    files != [] && q == "" && Nobody(files, Ending("")) && !SetsOff(files[0], "")
  }

  lemma RunsOutIs(files: seq<string>, format: string, q: string)
    requires format != "safetensors"
    ensures RunsOut(files, format, Some(q)) <==> OutOfNames(files, q)
  {
    if files != [] && q == "" {
      FirstIs(files, Strict(""));
      forall f | f in files ensures Strict("")(f) == Ending("")(f) {
        StrictIs(f, "");
      }
      SameFirst(files, Strict(""), Ending(""));
      BoundedIs(files[0], "");
    }
  }

  lemma ChoiceAsked(files: seq<string>, format: string, q: string)
    requires files != [] && format != "safetensors" && !RunsOut(files, format, Some(q))
    ensures Choice(files, format, Some(q)) == Ranked(files, AskedTiers(Upper(q)))
  {
  }

  /** A quantization that is asked for, in letters of either case: the first file that ends in it; else
      the first that sets it off; else the first that has it; else none. */
  lemma AskedChoice(files: seq<string>, format: string, q: string)
    requires format != "safetensors"
    ensures if files == [] then Choice(files, format, Some(q)) == Err(NoFiles)
            else if OutOfNames(files, q) then Choice(files, format, Some(q)) == Err(OutOfRange)
            else
              match Choice(files, format, Some(q))
              case Ok(f) => ChosenBy(files, AskedTests(Upper(q)), f)
              case Err(e) => e == NoMatch && forall t | 0 <= t < 3 :: Nobody(files, AskedTests(Upper(q))[t])
  {
    RunsOutIs(files, format, q);
    if files != [] && !OutOfNames(files, q) {
      ChoiceAsked(files, format, q);
      AskedRanked(files, Upper(q));
    }
  }

  // ----- Without one

  /** The tests behind a list of preferred names: each of them ends the name, in turn; then each of
      them is set off, in turn; then any file. */
  ghost function PreferredTest(names: seq<string>, t: nat): string -> bool
  {
    if t < |names| then Ending(names[t])
    else if t < 2 * |names| then Apart(names[t - |names|])
    else Anything()
  }

  ghost function PreferredTests(names: seq<string>): seq<string -> bool>
  {
    seq(2 * |names| + 1, t requires t >= 0 => PreferredTest(names, t))
  }

  lemma {:induction false} TierAt(names: seq<string>, t: nat)
    requires t < |names|
    ensures |StrictTiers(names)| == |names| == |DelimTiers(names)|
    ensures StrictTiers(names)[t] == Strict(names[t]) && DelimTiers(names)[t] == Delim(names[t])
    decreases |names|
  {
    if t > 0 {
      TierAt(names[1..], t - 1);
    } else if |names| > 1 {
      TierAt(names[1..], 0);
    }
  }

  ghost function PreferredTiers(names: seq<string>): seq<string -> bool>
  {
    StrictTiers(names) + (DelimTiers(names) + [Anything()])
  }

  lemma PreferredSame(names: seq<string>, t: nat, f: string)
    requires names != [] && t <= 2 * |names|
    ensures |PreferredTiers(names)| == 2 * |names| + 1 == |PreferredTests(names)|
    ensures PreferredTiers(names)[t](f) == PreferredTests(names)[t](f)
  {
    var k := if t < |names| then t else t - |names|;
    if t < |names| {
      TierAt(names, k);
      StrictIs(f, names[k]);
    } else if t < 2 * |names| {
      TierAt(names, k);
      DelimIs(f, names[k]);
    } else {
      TierAt(names, 0);
    }
  }

  lemma PreferredRanked(files: seq<string>, names: seq<string>)
    requires files != [] && names != []
    ensures var r := Ranked(files, PreferredTiers(names));
            r.Ok? && ChosenBy(files, PreferredTests(names), r.value)
  {
    var tiers, tests := PreferredTiers(names), PreferredTests(names);
    RankedIs(files, tiers);
    PreferredSame(names, 0, files[0]);
    forall t, f | 0 <= t < |tiers| && f in files ensures tiers[t](f) == tests[t](f) {
      PreferredSame(names, t, f);
    }
    SameTests(files, tiers, tests);
    assert !Nobody(files, tiers[2 * |names|]) by {
      PreferredSame(names, 2 * |names|, files[0]);
      assert Anything()(files[0]);
    }
  }

  lemma ChoicePreferred(files: seq<string>, format: string)
    requires files != [] && format != "safetensors"
    ensures var names := ["Q4_K_M", "Q4_0", "Q8_0", "F16"];
            Choice(files, format, None) == Ranked(files, PreferredTiers(names))
  {
  }

  /** When no quantization is asked for, a file that ends in Q4_K_M, Q4_0, Q8_0 or F16 is chosen, in
      that order of names; else one that sets off one of these, in the same order; else the first
      file. Of several that qualify alike it is the first. */
  lemma PreferredChoice(files: seq<string>, format: string)
    requires files != [] && format != "safetensors"
    ensures var r := Choice(files, format, None);
            r.Ok? && ChosenBy(files, PreferredTests(["Q4_K_M", "Q4_0", "Q8_0", "F16"]), r.value)
  {
    ChoicePreferred(files, format);
    PreferredRanked(files, ["Q4_K_M", "Q4_0", "Q8_0", "F16"]);
  }

  /** Among preferred names a file that ends in a later one goes before one that only sets off an
      earlier one: what is chosen ends in that name or in one before it. */
  lemma EndingGoesFirst(files: seq<string>, names: seq<string>, f: string, k: nat)
    requires ChosenBy(files, PreferredTests(names), f)
    requires k < |names| && !Nobody(files, Ending(names[k]))
    ensures exists j: nat :: j <= k && IsFirst(files, Ending(names[j]), f)
  {
    var tests := PreferredTests(names);
    var t :| 0 <= t < |tests| && IsFirst(files, tests[t], f) && forall u | 0 <= u < t :: Nobody(files, tests[u]);
    assert tests[k] == Ending(names[k]);
    assert IsFirst(files, Ending(names[t]), f);
  }

  // ----- Safetensors

  /** Of safetensors files the one called model.safetensors is chosen if there is one, else the first. */
  lemma SafetensorsChoice(files: seq<string>, quant: Option<string>)
    requires files != []
    ensures Choice(files, "safetensors", quant)
         == Ok(if "model.safetensors" in files then "model.safetensors" else files[0])
  {
    NamedFirst(files, "model.safetensors");
  }

  lemma NamedFirst(files: seq<string>, name: string)
    requires files != []
    ensures Best(files, [Named(name), Anything()]) == Some(if name in files then name else files[0])
  {
    BestCons(files, Named(name), [Anything()]);
    BestCons(files, Anything(), []);
    FirstIs(files, Named(name));
    assert Anything()(files[0]);
  }
}
