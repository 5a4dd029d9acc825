/** Bytes and the little-endian integers built from them. */
module Bytes {

  type byte = x: int | 0 <= x < 256

  const U32_MAX: nat := 0xFFFF_FFFF
  const U64_MAX: nat := 0xFFFF_FFFF_FFFF_FFFF

  function Min(a: nat, b: nat): nat
  {
    if a <= b then a else b
  }

  /** Subtraction that stops at zero. */
  function SaturatingSub(a: nat, b: nat): (r: nat)
    ensures r + Min(a, b) == a
  {
    if a < b then 0 else a - b
  }

  /** 256 to the power of `w`: the number of values that fit in `w` bytes. */
  function Span(w: nat): nat
  {
    if w == 0 then 1 else 256 * Span(w - 1)
  }

  lemma Spans()
    ensures Span(1) == 0x100 && Span(2) == 0x1_0000
    ensures Span(4) == U32_MAX + 1 && Span(8) == U64_MAX + 1
  {
    assert Span(2) == 256 * Span(1);
    assert Span(4) == 256 * 256 * Span(2);
    assert Span(6) == 256 * 256 * Span(4);
    assert Span(8) == 256 * 256 * Span(6);
  }

  function LittleEndian(n: nat, w: nat): (b: seq<byte>)
    requires n < Span(w)
    ensures |b| == w
  {
    if w == 0 then [] else [n % 256] + LittleEndian(n / 256, w - 1)
  }

  function FromLittleEndian(b: seq<byte>): (n: nat)
    ensures n < Span(|b|)
  {
    if b == [] then 0 else b[0] + 256 * FromLittleEndian(b[1..])
  }

  /** Decoding inverts encoding. */
  lemma {:induction false} LittleEndianRoundTrip(n: nat, w: nat)
    requires n < Span(w)
    ensures FromLittleEndian(LittleEndian(n, w)) == n
  {
    if w != 0 {
      LittleEndianRoundTrip(n / 256, w - 1);
      assert LittleEndian(n, w)[1..] == LittleEndian(n / 256, w - 1);
    }
  }

  /** The unsigned pattern of a signed integer of `w` bytes. */
  function ToTwosComplement(i: int, w: nat): (n: nat)
    requires 0 <= 2 * i + Span(w) && 2 * i < Span(w)
    ensures n < Span(w)
  {
    if i < 0 then i + Span(w) else i
  }

  function FromTwosComplement(n: nat, w: nat): int
    requires n < Span(w)
  {
    if 2 * n >= Span(w) then n - Span(w) else n
  }

  /** The bytes `enc` lie at offset `pos` of `data`. */
  ghost predicate At(data: seq<byte>, pos: nat, enc: seq<byte>)
  {
    pos + |enc| <= |data| && forall i | 0 <= i < |enc| :: enc[i] == data[pos + i]
  }

  lemma AtAppend(data: seq<byte>, pos: nat, a: seq<byte>, b: seq<byte>)
    ensures At(data, pos, a + b) ==> At(data, pos, a) && At(data, pos + |a|, b)
  {
    if At(data, pos, a + b) {
      forall i | 0 <= i < |a| ensures a[i] == data[pos + i] {
        assert (a + b)[i] == data[pos + i];
      }
      forall i | 0 <= i < |b| ensures b[i] == data[pos + |a| + i] {
        assert (a + b)[|a| + i] == data[pos + (|a| + i)];
      }
    }
  }
}
