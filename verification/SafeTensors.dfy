/** Counting the tensors and parameters a SafeTensors header declares. */
module SafeTensors {
  import opened Wrappers
  import opened Bytes

  type U64 = n: nat | n <= U64_MAX

  /** Parsed JSON; a number carries its value when it is an unsigned 64-bit one. */
  datatype Json =
    | Null
    | Bool(b: bool)
    | Number(u64: Option<U64>, text: string)
    | Str(s: string)
    | Array(items: seq<Json>)
    | Object(fields: seq<(string, Json)>)

  const METADATA_KEY: string := "__metadata__"

  function Field(fields: seq<(string, Json)>, key: string): Option<Json>
  {
    if fields == [] then None
    else if fields[0].0 == key then Some(fields[0].1)
    else Field(fields[1..], key)
  }

  function Capped(n: nat): nat
  {
    Min(n, U64_MAX)
  }

  /** Rust's saturating operations. */
  function SaturatingMul(a: nat, b: nat): nat
  {
    Capped(a * b)
  }

  function SaturatingAdd(a: nat, b: nat): nat
  {
    Capped(a + b)
  }

  // ----- The exact counts

  /** The product of the dimensions that are unsigned 64-bit numbers. */
  function Product(dims: seq<Json>): nat
    decreases |dims|
  {
    if dims == [] then 1 else Product(dims[..|dims| - 1]) * Extent(dims[|dims| - 1])
  }

  function Extent(dim: Json): nat
  {
    if dim.Number? && dim.u64.Some? then dim.u64.value else 1
  }

  function ShapeOf(tensor: Json): Option<seq<Json>>
  {
    if !tensor.Object? then None
    else
      match Field(tensor.fields, "shape")
      case Some(Array(dims)) => Some(dims)
      case _ => None
  }

  function Parameters(entry: (string, Json)): nat
  {
    if entry.0 == METADATA_KEY || ShapeOf(entry.1).None? then 0 else Product(ShapeOf(entry.1).value)
  }

  /** The true number of parameters. */
  function ParameterSum(header: seq<(string, Json)>): nat
    decreases |header|
  {
    if header == [] then 0 else ParameterSum(header[..|header| - 1]) + Parameters(header[|header| - 1])
  }

  function Tensors(header: seq<(string, Json)>): nat
    decreases |header|
  {
    if header == [] then 0
    else Tensors(header[..|header| - 1]) + (if header[|header| - 1].0 == METADATA_KEY then 0 else 1)
  }

  // ----- The loops

  /** Saturating at every step is capping once, zeros after saturation included. */
  lemma CapAtTheEnd(p: nat, d: nat)
    ensures SaturatingMul(Capped(p), d) == Capped(p * d)
    ensures SaturatingAdd(Capped(p), Capped(d)) == Capped(p + d)
  {
    if p >= U64_MAX && d > 0 {
      assert p * d >= p * 1 && U64_MAX * d >= U64_MAX * 1;
    }
  }

  method ShapeProduct(dims: seq<Json>) returns (prod: nat)
    ensures prod == Min(Product(dims), 0xFFFF_FFFF_FFFF_FFFF)
  {
    prod := 1;
    for i := 0 to |dims|
      invariant prod == Capped(Product(dims[..i]))
    {
      assert dims[..i + 1][..i] == dims[..i];
      CapAtTheEnd(Product(dims[..i]), Extent(dims[i]));
      if dims[i].Number? && dims[i].u64.Some? {
        prod := SaturatingMul(prod, dims[i].u64.value);
      }
    }
    assert dims[..|dims|] == dims;
  }

  /** The counts of a header: exact up to the largest 64-bit number. */
  method Count(header: seq<(string, Json)>) returns (tensorCount: nat, parameterCount: nat)
    ensures tensorCount == Tensors(header)
    ensures parameterCount == Min(ParameterSum(header), 0xFFFF_FFFF_FFFF_FFFF)
  {
    tensorCount, parameterCount := 0, 0;
    for i := 0 to |header|
      invariant tensorCount == Tensors(header[..i]) && parameterCount == Capped(ParameterSum(header[..i]))
    {
      assert header[..i + 1][..i] == header[..i];
      CapAtTheEnd(ParameterSum(header[..i]), Parameters(header[i]));
      var (key, value) := header[i];
      if key != METADATA_KEY {
        tensorCount := tensorCount + 1;
        if value.Object? {
          var shape := Field(value.fields, "shape");
          if shape.Some? && shape.value.Array? {
            var prod := ShapeProduct(shape.value.items);
            parameterCount := SaturatingAdd(parameterCount, prod);
          }
        }
      }
    }
    assert header[..|header|] == header;
  }

  // ----- What one entry adds

  lemma {:induction false} FieldFound(before: seq<(string, Json)>, key: string, value: Json, after: seq<(string, Json)>)
    requires forall i | 0 <= i < |before| :: before[i].0 != key
    ensures Field(before + [(key, value)] + after, key) == Some(value)
    decreases |before|
  {
    var fields := before + [(key, value)] + after;
    if before != [] {
      FieldFound(before[1..], key, value, after);
      assert fields[1..] == before[1..] + [(key, value)] + after;
    }
  }

  /** The metadata entry counts for nothing; every other entry is one tensor, and one with a shape has
      the product of its dimensions as parameters. */
  lemma EntryCounts(header: seq<(string, Json)>, key: string, value: Json)
    ensures var more := header + [(key, value)];
            && Tensors(more) == Tensors(header) + (if key == "__metadata__" then 0 else 1)
            && (key == "__metadata__" ==> ParameterSum(more) == ParameterSum(header))
            && (!value.Object? ==> ParameterSum(more) == ParameterSum(header))
  {
    assert (header + [(key, value)])[..|header|] == header;
  }

  lemma ShapeCounts(header: seq<(string, Json)>, key: string, before: seq<(string, Json)>, dims: seq<Json>,
                    after: seq<(string, Json)>)
    requires key != "__metadata__" && forall i | 0 <= i < |before| :: before[i].0 != "shape"
    ensures ParameterSum(header + [(key, Object(before + [("shape", Array(dims))] + after))])
            == ParameterSum(header) + Product(dims)
  {
    var entry := (key, Object(before + [("shape", Array(dims))] + after));
    FieldFound(before, "shape", Array(dims), after);
    assert (header + [entry])[..|header|] == header;
  }

  /** A dimension that is an unsigned 64-bit number multiplies, anything else does not. */
  lemma DimensionCounts(dims: seq<Json>, dim: Json)
    ensures Product([]) == 1
    ensures Product(dims + [dim])
            == if dim.Number? && dim.u64.Some? then Product(dims) * dim.u64.value else Product(dims)
  {
    assert (dims + [dim])[..|dims|] == dims;
  }

  // ----- The order of tensors and of dimensions does not matter

  lemma SwapFactors(p: nat, x: nat, y: nat)
    ensures p * x * y == p * y * x
  {
  }

  lemma {:induction false} ProductWithout(dims: seq<Json>, k: nat)
    requires k < |dims|
    ensures Product(dims) == Product(dims[..k] + dims[k + 1..]) * Extent(dims[k])
    decreases |dims|
  {
    var init, last := dims[..|dims| - 1], dims[|dims| - 1];
    if k == |dims| - 1 {
      assert dims[..k] + dims[k + 1..] == init;
    } else {
      ProductWithout(init, k);
      var rest := dims[..k] + dims[k + 1..];
      assert rest[..|rest| - 1] == init[..k] + init[k + 1..] && rest[|rest| - 1] == last;
      SwapFactors(Product(init[..k] + init[k + 1..]), Extent(dims[k]), Extent(last));
    }
  }

  lemma RemoveSame<T>(a: seq<T>, b: seq<T>) returns (k: nat)
    requires a != [] && multiset(a) == multiset(b)
    ensures k < |b| && b[k] == a[|a| - 1]
    ensures multiset(a[..|a| - 1]) == multiset(b[..k] + b[k + 1..])
  {
    var init, last := a[..|a| - 1], a[|a| - 1];
    assert a == init + [last];
    assert last in multiset(b);
    k :| 0 <= k < |b| && b[k] == last;
    assert b == b[..k] + [last] + b[k + 1..];
    assert multiset(b) == multiset(b[..k]) + multiset{last} + multiset(b[k + 1..]);
    assert multiset(b[..k] + b[k + 1..]) == multiset(b) - multiset{last};
    assert multiset(init) == multiset(a) - multiset{last};
  }

  lemma {:induction false} ProductPermutes(a: seq<Json>, b: seq<Json>)
    requires multiset(a) == multiset(b)
    ensures Product(a) == Product(b)
    decreases |a|
  {
    assert |multiset(a)| == |multiset(b)|;
    if a != [] {
      var k := RemoveSame(a, b);
      ProductPermutes(a[..|a| - 1], b[..k] + b[k + 1..]);
      ProductWithout(b, k);
    }
  }

  lemma {:induction false} SumWithout(header: seq<(string, Json)>, k: nat)
    requires k < |header|
    ensures ParameterSum(header) == ParameterSum(header[..k] + header[k + 1..]) + Parameters(header[k])
    decreases |header|
  {
    var init, last := header[..|header| - 1], header[|header| - 1];
    if k == |header| - 1 {
      assert header[..k] + header[k + 1..] == init;
    } else {
      SumWithout(init, k);
      var rest := header[..k] + header[k + 1..];
      assert rest[..|rest| - 1] == init[..k] + init[k + 1..] && rest[|rest| - 1] == last;
    }
  }

  /** Whatever order the header object is walked in, the parameter count is the same. */
  lemma {:induction false} SumPermutes(a: seq<(string, Json)>, b: seq<(string, Json)>)
    requires multiset(a) == multiset(b)
    ensures ParameterSum(a) == ParameterSum(b)
    decreases |a|
  {
    assert |multiset(a)| == |multiset(b)|;
    if a != [] {
      var k := RemoveSame(a, b);
      SumPermutes(a[..|a| - 1], b[..k] + b[k + 1..]);
      SumWithout(b, k);
    }
  }
}
