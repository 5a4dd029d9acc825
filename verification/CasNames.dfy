/** File names of the `cas` directory: which digest, in which format, a flat file is for. */
module CasNames {
  import opened Strings

  datatype CasName = Gguf(digest: string) | Safetensors(digest: string) | Other(name: string)

  const FLAT_PREFIX: string := "sha256-"
  const GGUF_SUFFIX: string := ".gguf"
  const SAFETENSORS_SUFFIX: string := ".safetensors"

  /** Strips the prefix, then the suffix that is there. */
  function Parse(file: string): CasName
  {
    match StripPrefix(file, FLAT_PREFIX)
    case None => Other(file)
    case Some(rest) =>
      match StripSuffix(rest, GGUF_SUFFIX)
      case Some(d) => Gguf(d)
      case None =>
        match StripSuffix(rest, SAFETENSORS_SUFFIX)
        case Some(d) => Safetensors(d)
        case None => Other(file)
  }

  function Print(name: CasName): string
  {
    match name
    case Gguf(d) => FLAT_PREFIX + (d + GGUF_SUFFIX)
    case Safetensors(d) => FLAT_PREFIX + (d + SAFETENSORS_SUFFIX)
    case Other(file) => file
  }

  /** Flat names of different digests or formats are different files. */
  lemma ParsePrint(name: CasName)
    requires !name.Other?
    ensures Parse(Print(name)) == name
  {
    var d := name.digest;
    StripsOff(FLAT_PREFIX, d + GGUF_SUFFIX, GGUF_SUFFIX);
    StripsOff(FLAT_PREFIX, d + SAFETENSORS_SUFFIX, SAFETENSORS_SUFFIX);
    StripsOff(FLAT_PREFIX, d, GGUF_SUFFIX);
    StripsOff(FLAT_PREFIX, d, SAFETENSORS_SUFFIX);
    var s := d + SAFETENSORS_SUFFIX;
    assert s[|s| - 1] == 's' && GGUF_SUFFIX[4] == 'f';
  }

  lemma Joined(a: string, b: string, c: string)
    ensures a + (b + c) == a + b + c
  {
  }

  /** The two forms of a flat name, written out. */
  lemma PrintIs(d: string)
    ensures Print(Gguf(d)) == "sha256-" + d + ".gguf"
    ensures Print(Safetensors(d)) == "sha256-" + d + ".safetensors"
  {
    Joined(FLAT_PREFIX, d, GGUF_SUFFIX);
    Joined(FLAT_PREFIX, d, SAFETENSORS_SUFFIX);
  }

  /** Testing both ends separately, as the statistics do, finds the same files. */
  lemma AffixesDoNotOverlap(file: string)
    ensures StartsWith(file, FLAT_PREFIX) && EndsWith(file, GGUF_SUFFIX) <==> Parse(file).Gguf?
    ensures StartsWith(file, FLAT_PREFIX) && EndsWith(file, SAFETENSORS_SUFFIX) <==> Parse(file).Safetensors?
  {
    if StartsWith(file, FLAT_PREFIX) {
      var rest := file[|FLAT_PREFIX|..];
      assert EndsWith(file, GGUF_SUFFIX) <==> EndsWith(rest, GGUF_SUFFIX) by {
        SuffixBeyondPrefix(file, GGUF_SUFFIX);
      }
      assert EndsWith(file, SAFETENSORS_SUFFIX) <==> EndsWith(rest, SAFETENSORS_SUFFIX) by {
        SuffixBeyondPrefix(file, SAFETENSORS_SUFFIX);
      }
      if EndsWith(rest, GGUF_SUFFIX) {
        assert rest[|rest| - 1] == 'f';
      }
      if EndsWith(rest, SAFETENSORS_SUFFIX) {
        assert rest[|rest| - 1] == 's';
      }
    }
  }

  /** A suffix that starts with a dot cannot reach back into the prefix, which has none. */
  lemma SuffixBeyondPrefix(file: string, suffix: string)
    requires StartsWith(file, FLAT_PREFIX) && suffix != [] && suffix[0] == '.'
    ensures EndsWith(file, suffix) <==> EndsWith(file[|FLAT_PREFIX|..], suffix)
  {
    var rest := file[|FLAT_PREFIX|..];
    if EndsWith(file, suffix) {
      var k := |file| - |suffix|;
      assert file[k] == file[k..][0] == '.';
      assert forall j | 0 <= j < |FLAT_PREFIX| :: file[j] == file[..|FLAT_PREFIX|][j] != '.';
      assert rest[|rest| - |suffix|..] == file[k..];
    }
  }
}
