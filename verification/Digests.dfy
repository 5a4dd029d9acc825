/** The form of a SHA-256 digest used as a file name, and the ways it may be spelled. */
module Digests {
  import opened Strings

  const DIGEST_LEN: nat := 64

  predicate IsLowerHex(c: char)
  {
    '0' <= c <= '9' || 'a' <= c <= 'f'
  }

  predicate IsDigest(s: string)
  {
    |s| == DIGEST_LEN && forall i | 0 <= i < |s| :: IsLowerHex(s[i])
  }

  predicate IsHex(c: char)
  {
    '0' <= c <= '9' || 'a' <= c <= 'f' || 'A' <= c <= 'F'
  }

  /** 64 hex digits in either case. */
  predicate HexDigits(s: string)
  {
    |s| == DIGEST_LEN && forall i | 0 <= i < |s| :: IsHex(s[i])
  }

  lemma HexChars(c: char)
    ensures IsLowerHex(c) <==> c in "0123456789abcdef"
    ensures IsHex(c) <==> c in "0123456789abcdefABCDEF"
  {
    var lower, both := "0123456789abcdef", "0123456789abcdefABCDEF";
    if '0' <= c <= '9' {
      assert lower[c as int - '0' as int] == both[c as int - '0' as int] == c;
    } else if 'a' <= c <= 'f' {
      assert lower[10 + c as int - 'a' as int] == both[10 + c as int - 'a' as int] == c;
    } else if 'A' <= c <= 'F' {
      assert both[16 + c as int - 'A' as int] == c;
    }
  }

  /** The two forms, character by character. */
  lemma DigestIs(s: string)
    ensures IsDigest(s) <==> |s| == 64 && forall i | 0 <= i < |s| :: s[i] in "0123456789abcdef"
    ensures HexDigits(s) <==> |s| == 64 && forall i | 0 <= i < |s| :: s[i] in "0123456789abcdefABCDEF"
  {
    forall i | 0 <= i < |s|
      ensures IsLowerHex(s[i]) <==> s[i] in "0123456789abcdef"
      ensures IsHex(s[i]) <==> s[i] in "0123456789abcdefABCDEF"
    {
      HexChars(s[i]);
    }
  }

  lemma HexLowers(x: string)
    ensures HexDigits(x) <==> IsDigest(Lower(x))
  {
    forall c ensures IsHex(c) <==> IsLowerHex(LowerChar(c)) {
    }
    if IsDigest(Lower(x)) {
      forall i | 0 <= i < |x| ensures IsHex(x[i]) {
        assert IsLowerHex(Lower(x)[i]);
      }
    }
    if HexDigits(x) {
      forall i | 0 <= i < |x| ensures IsLowerHex(Lower(x)[i]) {
        assert IsHex(x[i]);
      }
    }
  }

  lemma DigestLower(d: string)
    requires IsDigest(d)
    ensures Lower(d) == d
  {
    forall i | 0 <= i < |d| ensures LowerChar(d[i]) == d[i] {
      assert IsLowerHex(d[i]);
    }
  }

  /** `s` is digest `d` in letters of either case, with white space around it or not. */
  ghost predicate Spelled(s: string, d: string)
  {
    exists before, x, after :: Padded(s, before, x, after) && HexDigits(x) && Lower(x) == d
  }

  /** Comparing trimmed and without regard to case accepts exactly the spellings. */
  lemma SpelledIff(s: string, d: string)
    requires IsDigest(d)
    ensures Lower(Trim(s)) == Lower(d) <==> Spelled(s, d)
  {
    DigestLower(d);
    if Lower(Trim(s)) == d {
      var before, after := TrimSplits(s);
      HexLowers(Trim(s));
    }
    forall before, x, after | Padded(s, before, x, after) && HexDigits(x) && Lower(x) == d ensures Trim(s) == x {
      HexEnds(x);
      TrimBlank(before, x, after);
    }
  }

  lemma HexEnds(x: string)
    requires HexDigits(x)
    ensures x != "" && !IsSpace(x[0]) && !IsSpace(x[|x| - 1])
  {
    assert IsHex(x[0]) && IsHex(x[|x| - 1]);
  }

  /** A file's pin is looked up under its trimmed name, and only if that has digest form. */
  predicate IsPinned(pinned: set<string>, name: string)
  {
    IsDigest(Trim(name)) && Trim(name) in pinned
  }

  /** A pin protects the digest it names, under that name and under it with white space around it. */
  lemma PinnedIff(pinned: set<string>, name: string)
    ensures IsPinned(pinned, name) <==>
            exists before, d, after :: Padded(name, before, d, after) && IsDigest(d) && d in pinned
    ensures IsDigest(name) ==> (IsPinned(pinned, name) <==> name in pinned)
  {
    var before, after := TrimSplits(name);
    forall before, d, after | Padded(name, before, d, after) && IsDigest(d) ensures Trim(name) == d {
      DigestEnds(d);
      TrimBlank(before, d, after);
    }
    if IsDigest(name) {
      DigestEnds(name);
      TrimNothing(name);
    }
  }

  lemma DigestEnds(d: string)
    requires IsDigest(d)
    ensures d != "" && !IsSpace(d[0]) && !IsSpace(d[|d| - 1])
  {
    assert IsLowerHex(d[0]) && IsLowerHex(d[|d| - 1]);
  }
}
