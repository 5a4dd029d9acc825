/** What the metadata of a header says about its key/value pairs: the last pair of a key wins. */
module GgufMetadata {
  import opened Wrappers
  import opened Bytes
  import opened Numerals
  import opened Gguf
  import opened GgufEncode

  /** The text of the last pair whose key satisfies `sel`. */
  ghost function LastText(ps: seq<Pair>, sel: string -> bool): Option<string>
  {
    if ps == [] then None
    else if sel(ps[|ps| - 1].key) then Some(ps[|ps| - 1].text)
    else LastText(ps[..|ps| - 1], sel)
  }

  /** `LastText` is what its name says: the text at the greatest matching index. */
  lemma {:induction false} LastTextIsLast(ps: seq<Pair>, sel: string -> bool, i: nat)
    requires i < |ps| && sel(ps[i].key) && forall j | i < j < |ps| :: !sel(ps[j].key)
    ensures LastText(ps, sel) == Some(ps[i].text)
    decreases |ps|
  {
    if i < |ps| - 1 {
      LastTextIsLast(ps[..|ps| - 1], sel, i);
    }
  }

  lemma {:induction false} LastTextFinds(ps: seq<Pair>, sel: string -> bool)
    ensures LastText(ps, sel).None? <==> forall i | 0 <= i < |ps| :: !sel(ps[i].key)
    decreases |ps|
  {
    if ps != [] {
      LastTextFinds(ps[..|ps| - 1], sel);
    }
  }

  ghost function KeyIs(key: string): string -> bool
  {
    k => k == key
  }

  ghost function IsContext(): string -> bool
  {
    k => Strings.EndsWith(k, ".context_length")
  }

  lemma SpecialKeysApart()
    ensures ARCHITECTURE != FILE_TYPE
    ensures !Strings.EndsWith(ARCHITECTURE, CONTEXT_LENGTH) && !Strings.EndsWith(FILE_TYPE, CONTEXT_LENGTH)
  {
    assert ARCHITECTURE[|ARCHITECTURE| - 1] == 'e' && FILE_TYPE[|FILE_TYPE| - 1] == 'e';
    assert CONTEXT_LENGTH[|CONTEXT_LENGTH| - 1] == 'h';
    assert ARCHITECTURE[8] == 'a' && FILE_TYPE[8] == 'f';
  }

  function Parsed(text: Option<string>, max: nat): Option<nat>
  {
    if text.Some? then ParseUnsigned(text.value, max) else None
  }

  /** The attribute map holds exactly the keys read, each with its last text. */
  lemma {:induction false} AttributesLastWin(version: nat, tensorCount: nat, ps: seq<Pair>, key: string)
    ensures var attributes := AbsorbAll(Begin(version, tensorCount), ps).attributes;
            (if key in attributes then Some(attributes[key]) else None) == LastText(ps, KeyIs(key))
    decreases |ps|
  {
    if ps != [] {
      AttributesLastWin(version, tensorCount, ps[..|ps| - 1], key);
    }
  }

  /** The named fields come from the last pair of their key. For the context length that is the
      last key ending in `.context_length`: an unparsable last one erases an earlier good one. */
  lemma {:induction false} FieldsLastWin(version: nat, tensorCount: nat, ps: seq<Pair>)
    ensures var m := AbsorbAll(Begin(version, tensorCount), ps);
      && m.version == version && m.tensorCount == tensorCount
      && m.architecture == LastText(ps, KeyIs("general.architecture"))
      && m.fileType == Parsed(LastText(ps, KeyIs("general.file_type")), 0xFFFF_FFFF)
      && m.contextLength == Parsed(LastText(ps, IsContext()), 0xFFFF_FFFF_FFFF_FFFF)
    decreases |ps|
  {
    SpecialKeysApart();
    if ps != [] {
      FieldsLastWin(version, tensorCount, ps[..|ps| - 1]);
    }
  }

  /** End to end: an unsigned context length written last in a header is the one reported,
      whatever follows the header in the stream. */
  lemma ContextLengthRoundTrip(x: Text, src: Source, h: Header, i: nat)
    requires Addressable(src) && HeaderFits(x, h) && At(src.data, 0, EncodeHeader(x, h))
    requires i < |h.pairs| && h.pairs[i].value.Unsigned?
    requires Strings.EndsWith(ShowPairs(x, h.pairs)[i].key, ".context_length")
    requires forall j | i < j < |h.pairs| :: !Strings.EndsWith(ShowPairs(x, h.pairs)[j].key, ".context_length")
    ensures ReadHeader(x, src).Done? && ReadHeader(x, src).value.contextLength == Some(h.pairs[i].value.n)
  {
    Spans();
    var v := h.pairs[i].value;
    assert Fits(x, v) && v.n <= U64_MAX;
    HeaderRoundTrip(x, src, h);
    FieldsLastWin(h.version, h.tensorCount, ShowPairs(x, h.pairs));
    LastTextIsLast(ShowPairs(x, h.pairs), IsContext(), i);
    ParseDecimal(v.n, U64_MAX);
  }
}
