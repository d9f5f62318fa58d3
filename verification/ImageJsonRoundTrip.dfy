/** Printing a frame as JSON and decoding it: the same picture, and the same as over ImageBytes. */
module ImageJsonRoundTrip {
  import opened Bytes
  import opened Grid
  import opened ImageBytes
  import opened Decimal
  import opened JsonArrays
  import opened ImageJson
  import opened ImageJsonDecode

  predicate IntegralFrame(f: ImageFrame) {
    Printable(f) && Integral(f.Transmit())
  }

  /** Sample k of the frame, counted in the order its pixels are stored. */
  function FrameSample(f: ImageFrame, k: nat): int
    requires IntegralFrame(f) && k < Count(f)
  {
    MulMonotone(k + 1, Count(f), ElementSize(f.Transmit()));
    Sample(f.pixels, k, f.Transmit())
  }

  function PlaneTree(f: ImageFrame, x: nat, y: nat, p: nat): Json
    requires IntegralFrame(f) && x < f.width && y < f.height && p < PlanesOf(f)
  {
    ElemIndexBound(f, x, y, p);
    Num(FrameSample(f, ElemIndex(f, x, y, p)) as real)
  }

  function PlaneTrees(f: ImageFrame, x: nat, y: nat): (s: seq<Json>)
    requires IntegralFrame(f) && x < f.width && y < f.height
    ensures |s| == PlanesOf(f)
  {
    seq(PlanesOf(f), p requires 0 <= p < PlanesOf(f) => PlaneTree(f, x, y, p))
  }

  function CellTree(f: ImageFrame, x: nat, y: nat): Json
    requires IntegralFrame(f) && x < f.width && y < f.height
  {
    if f.rank == 2 then PlaneTree(f, x, y, 0) else Arr(PlaneTrees(f, x, y))
  }

  function ColumnTree(f: ImageFrame, x: nat): (s: seq<Json>)
    requires IntegralFrame(f) && x < f.width
    ensures |s| == f.height
  {
    seq(f.height, y requires 0 <= y < f.height => CellTree(f, x, y))
  }

  /** Value[x][y] or Value[x][y][p]. */
  function ValueTree(f: ImageFrame): (s: seq<Json>)
    requires IntegralFrame(f)
    ensures |s| == f.width
  {
    seq(f.width, x requires 0 <= x < f.width => Arr(ColumnTree(f, x)))
  }

  lemma CellTextIsTree(f: ImageFrame, x: nat, y: nat, wide: WideText)
    requires IntegralFrame(f) && x < f.width && y < f.height
    ensures CellText(f, x, y, wide) == Text(CellTree(f, x, y))
  {
    if f.rank == 2 {
      ElemIndexBound(f, x, y, 0);
    } else {
      forall p: nat | p < PlanesOf(f)
        ensures PlaneTexts(f, x, y, wide)[p] == Text(PlaneTrees(f, x, y)[p])
      {
        ElemIndexBound(f, x, y, p);
      }
      ItemsTextJoins(PlaneTrees(f, x, y), PlaneTexts(f, x, y, wide));
    }
  }

  /** The printed Value is the text of the nested array. */
  lemma ValueTextIsTree(f: ImageFrame, wide: WideText)
    requires IntegralFrame(f)
    ensures ValueText(f, wide) == Text(Arr(ValueTree(f)))
  {
    forall x: nat | x < f.width
      ensures ColumnTexts(f, wide)[x] == Text(ValueTree(f)[x])
    {
      forall y: nat | y < f.height
        ensures CellTexts(f, x, wide)[y] == Text(ColumnTree(f, x)[y])
      {
        CellTextIsTree(f, x, y, wide);
      }
      ItemsTextJoins(ColumnTree(f, x), CellTexts(f, x, wide));
    }
    ItemsTextJoins(ValueTree(f), ColumnTexts(f, wide));
  }

  lemma ValueTreeWhole(f: ImageFrame)
    requires IntegralFrame(f)
    ensures Whole(Arr(ValueTree(f)))
  {
    forall x: nat | x < f.width
      ensures Whole(ValueTree(f)[x])
    {
      forall y: nat | y < f.height
        ensures Whole(ColumnTree(f, x)[y])
      {
        CellTreeWhole(f, x, y);
      }
    }
  }

  lemma CellTreeWhole(f: ImageFrame, x: nat, y: nat)
    requires IntegralFrame(f) && x < f.width && y < f.height
    ensures Whole(CellTree(f, x, y))
  {
    forall p: nat | p < PlanesOf(f)
      ensures Whole(PlaneTree(f, x, y, p))
    {
    }
  }

  // ---- the rank, when the envelope omits it ----

  lemma SniffNumber(n: int, rest: string, depth: nat)
    ensures SniffFrom(IntText(n) + rest, depth) == depth
  {
    assert (IntText(n) + rest)[0] == IntText(n)[0];
  }

  lemma SniffOpen(items: seq<Json>, rest: string, depth: nat) returns (more: string)
    requires items != []
    ensures SniffFrom(Text(Arr(items)) + rest, depth) ==
            if depth + 1 == 3 then 3 else SniffFrom(Text(items[0]) + more, depth + 1)
  {
    var s := Text(Arr(items)) + rest;
    assert Text(Arr(items)) == "[" + ItemsText(items) + "]";
    hide Text, ItemsText;
    var t := "]" + rest;
    ItemsTextParts(items, t);
    more := if |items| == 1 then t else "," + (ItemsText(items[1..]) + t);
    assert s[0] == '[' && s[1..] == ItemsText(items) + t;
  }

  /** Counting the opening brackets of a printed frame gives its rank. */
  lemma SniffRankOf(f: ImageFrame, wide: WideText)
    requires IntegralFrame(f)
    ensures SniffFrom(ValueText(f, wide), 0) == f.rank
  {
    ValueTextIsTree(f, wide);
    var s := ValueText(f, wide);
    assert s == s + "";
    var more := SniffOpen(ValueTree(f), "", 0);
    var more' := SniffOpen(ColumnTree(f, 0), more, 1);
    if f.rank == 2 {
      ElemIndexBound(f, 0, 0, 0);
      SniffNumber(FrameSample(f, ElemIndex(f, 0, 0, 0)), more', 2);
    } else {
      var more'' := SniffOpen(PlaneTrees(f, 0, 0), more', 2);
    }
  }

  // ---- the numbers ----

  /** The integers of at most 32 bits, signed or not. */
  predicate Small(n: int) {
    -0x8000_0000 <= n < 0x1_0000_0000
  }

  /** Small integers are float64s, so rounding leaves them alone. */
  ghost predicate KeepsSmall(nearest: real -> real) {
    forall n: int | Small(n) :: nearest(n as real) == n as real
  }

  lemma SampleSmall(f: ImageFrame, k: nat)
    requires IntegralFrame(f) && k < Count(f)
    ensures Small(FrameSample(f, k))
  {
  }

  lemma SmallInRange(n: int)
    requires Small(n)
    ensures IsNumber(Num(n as real))
  {
    assert Pow2(1) == 2 && Pow2(8) == 0x100;
    assert Pow2(16) == 0x1_0000 && Pow2(24) == 0x100_0000 && Pow2(32) == 0x1_0000_0000;
    hide Pow2;
    Pow2Monotone(1, 54);
    Pow2Monotone(32, 970);
    assert (Pow2(54) - 1) * Pow2(970) >= Pow2(970);
  }

  /** A number that decoding accepts and leaves alone. */
  ghost predicate Kept(j: Json, nearest: real -> real) {
    j.Num? && IsNumber(j) && nearest(j.x) == j.x
  }

  lemma PlaneNumber(f: ImageFrame, x: nat, y: nat, p: nat)
    requires IntegralFrame(f) && x < f.width && y < f.height && p < PlanesOf(f)
    ensures ElemIndex(f, x, y, p) < Count(f)
    ensures PlaneTree(f, x, y, p) == Num(FrameSample(f, ElemIndex(f, x, y, p)) as real)
  {
    ElemIndexBound(f, x, y, p);
  }

  lemma PlaneKept(f: ImageFrame, x: nat, y: nat, p: nat, nearest: real -> real)
    requires KeepsSmall(nearest)
    requires IntegralFrame(f) && x < f.width && y < f.height && p < PlanesOf(f)
    ensures Kept(PlaneTree(f, x, y, p), nearest)
  {
    hide IsNumber, ElemIndex, FrameSample;
    ElemIndexBound(f, x, y, p);
    SampleSmall(f, ElemIndex(f, x, y, p));
    SmallInRange(FrameSample(f, ElemIndex(f, x, y, p)));
  }

  lemma RowKept(items: seq<Json>, nearest: real -> real)
    requires forall i | 0 <= i < |items| :: Kept(items[i], nearest)
    ensures IsRow(Arr(items))
    ensures var row := RowOfJson(Arr(items), nearest);
            |row| == |items| && forall i | 0 <= i < |items| :: items[i] == Num(row[i])
  {
    hide IsNumber;
  }

  lemma ColumnRow(f: ImageFrame, x: nat, nearest: real -> real)
    requires KeepsSmall(nearest)
    requires IntegralFrame(f) && f.rank == 2 && x < f.width
    ensures IsRow(Arr(ColumnTree(f, x)))
    ensures var row := RowOfJson(Arr(ColumnTree(f, x)), nearest);
            |row| == f.height && forall y: nat | y < f.height :: PlaneTree(f, x, y, 0) == Num(row[y])
  {
    forall y: nat | y < f.height
      ensures Kept(ColumnTree(f, x)[y], nearest) && ColumnTree(f, x)[y] == PlaneTree(f, x, y, 0)
    {
      PlaneKept(f, x, y, 0, nearest);
      hide Kept, PlaneTree;
    }
    hide PlaneTree, ColumnTree, IsRow, RowOfJson;
    RowKept(ColumnTree(f, x), nearest);
  }

  lemma PlanesRow(f: ImageFrame, x: nat, y: nat, nearest: real -> real)
    requires KeepsSmall(nearest)
    requires IntegralFrame(f) && x < f.width && y < f.height
    ensures IsRow(Arr(PlaneTrees(f, x, y)))
    ensures var row := RowOfJson(Arr(PlaneTrees(f, x, y)), nearest);
            |row| == PlanesOf(f) && forall p: nat | p < PlanesOf(f) :: PlaneTree(f, x, y, p) == Num(row[p])
  {
    forall p: nat | p < PlanesOf(f)
      ensures Kept(PlaneTrees(f, x, y)[p], nearest) && PlaneTrees(f, x, y)[p] == PlaneTree(f, x, y, p)
    {
      PlaneKept(f, x, y, p, nearest);
      hide Kept, PlaneTree;
    }
    hide PlaneTree, PlaneTrees, IsRow, RowOfJson;
    RowKept(PlaneTrees(f, x, y), nearest);
  }

  lemma MatrixOfFrame(f: ImageFrame, nearest: real -> real)
    requires KeepsSmall(nearest)
    requires IntegralFrame(f) && f.rank == 2
    ensures var j := Arr(ValueTree(f));
            && IsMatrix(j)
            && (var v := MatrixOfJson(j, nearest);
                && |v| == f.width && |v[0]| == f.height && FirstRagged(v, f.height, 0) == f.width
                && f.width * f.height == Count(f)
                && forall k: nat | k < Count(f) :: NumberAt(v, k) == FrameSample(f, k) as real)
  {
    var j := Arr(ValueTree(f));
    forall x: nat | x < f.width
      ensures IsRow(j.items[x])
    {
      ColumnRow(f, x, nearest);
    }
    hide ColumnTree, IsRow, RowOfJson, PlaneTree, FrameSample;
    var v := MatrixOfJson(j, nearest);
    forall x: nat | x < f.width
      ensures |v[x]| == f.height && v[x] == RowOfJson(Arr(ColumnTree(f, x)), nearest)
    {
      ColumnRow(f, x, nearest);
    }
    forall k: nat | k < Count(f)
      ensures NumberAt(v, k) == FrameSample(f, k) as real
    {
      assert f.width * f.height * 1 == f.height * f.width;
      MixSplit(k, f.height, f.width);
      var x, y := k % f.width, k / f.width;
      ColumnRow(f, x, nearest);
      assert ElemIndex(f, x, y, 0) == k;
      PlaneNumber(f, x, y, 0);
    }
  }

  lemma CubeShape(f: ImageFrame, nearest: real -> real)
    requires KeepsSmall(nearest)
    requires IntegralFrame(f) && f.rank == 3
    ensures var j := Arr(ValueTree(f));
            && IsCube(j)
            && (var v := CubeOfJson(j, nearest);
                && |v| == f.width
                && (forall x: nat, y: nat | x < f.width && y < f.height :: |v[x]| == f.height && |v[x][y]| == f.planes))
  {
    var j := Arr(ValueTree(f));
    forall x: nat | x < f.width
      ensures IsMatrix(j.items[x])
    {
      forall y: nat | y < f.height
        ensures IsRow(ColumnTree(f, x)[y])
      {
        PlanesRow(f, x, y, nearest);
        assert ColumnTree(f, x)[y] == Arr(PlaneTrees(f, x, y));
      }
    }
    hide PlaneTrees, IsRow, RowOfJson;
    var v := CubeOfJson(j, nearest);
    forall x: nat, y: nat | x < f.width && y < f.height
      ensures |v[x]| == f.height && |v[x][y]| == f.planes
    {
      PlanesRow(f, x, y, nearest);
      assert v[x][y] == RowOfJson(ColumnTree(f, x)[y], nearest);
    }
  }

  /** The place of wire index k. */
  lemma CubePlace(f: ImageFrame, k: nat)
    requires IntegralFrame(f) && f.rank == 3 && k < Count(f)
    ensures f.height > 0 && f.planes > 0
    ensures var x, y, p := k / f.planes / f.height, k / f.planes % f.height, k % f.planes;
            x < f.width && y < f.height && p < f.planes && ElemIndex(f, x, y, p) == k
  {
    MixSplit(k, f.width * f.height, f.planes);
    MixSplit(k / f.planes, f.width, f.height);
  }

  lemma CubeAt(f: ImageFrame, x: nat, y: nat, p: nat, nearest: real -> real)
    requires KeepsSmall(nearest)
    requires IntegralFrame(f) && f.rank == 3 && x < f.width && y < f.height && p < f.planes
    requires IsCube(Arr(ValueTree(f)))
    ensures var v := CubeOfJson(Arr(ValueTree(f)), nearest);
            && x < |v| && y < |v[x]| && p < |v[x][y]|
            && Num(v[x][y][p]) == PlaneTree(f, x, y, p)
  {
    var v := CubeOfJson(Arr(ValueTree(f)), nearest);
    PlanesRow(f, x, y, nearest);
    hide PlaneTrees, PlaneTree, IsRow, RowOfJson;
    assert v[x] == MatrixOfJson(Arr(ColumnTree(f, x)), nearest);
    assert v[x][y] == RowOfJson(Arr(PlaneTrees(f, x, y)), nearest);
  }

  lemma CubeNumber(f: ImageFrame, k: nat, nearest: real -> real)
    requires KeepsSmall(nearest)
    requires IntegralFrame(f) && f.rank == 3 && k < Count(f)
    requires IsCube(Arr(ValueTree(f)))
    ensures NumberAt3(CubeOfJson(Arr(ValueTree(f)), nearest), f.height, f.planes, k) == FrameSample(f, k) as real
  {
    hide ValueTree, CubeOfJson, IsCube, FrameSample, ElemIndex, Count;
    CubePlace(f, k);
    var x, y, p := k / f.planes / f.height, k / f.planes % f.height, k % f.planes;
    CubeAt(f, x, y, p, nearest);
    ElemIndexBound(f, x, y, p);
  }

  lemma CubeOfFrame(f: ImageFrame, nearest: real -> real)
    requires KeepsSmall(nearest)
    requires IntegralFrame(f) && f.rank == 3
    ensures var j := Arr(ValueTree(f));
            && IsCube(j)
            && (var v := CubeOfJson(j, nearest);
                && |v| == f.width && |v[0]| == f.height && |v[0][0]| == f.planes
                && Fault3(v, f.height, f.planes, 0) == None
                && forall k: nat | k < Count(f) :: NumberAt3(v, f.height, f.planes, k) == FrameSample(f, k) as real)
  {
    CubeShape(f, nearest);
    var v := CubeOfJson(Arr(ValueTree(f)), nearest);
    assert |v[0][0]| == f.planes;
    NoFault(v, f.height, f.planes, 0);
    forall k: nat | k < Count(f)
      ensures NumberAt3(v, f.height, f.planes, k) == FrameSample(f, k) as real
    {
      CubeNumber(f, k, nearest);
    }
  }

  lemma {:induction false} NoFault(v: Cube, h: nat, planes: nat, x: nat)
    requires x <= |v|
    requires forall i: nat | i < |v| :: |v[i]| == h && forall y: nat | y < h :: |v[i][y]| == planes
    ensures Fault3(v, h, planes, x) == None
    decreases |v| - x
  {
    if x < |v| {
      NoFault(v, h, planes, x + 1);
    }
  }

  // ---- the round trip ----

  /** The type a client shows the frame's samples in. */
  function Presented(f: ImageFrame): int32 {
    JsonElementType(JsonImageType(f.elementType))
  }

  /** The frame a client decodes from the printed Value, whether or not the envelope names the rank. */
  lemma DecodePrinted(f: ImageFrame, wide: WideText, rank: int, nearest: real -> real, bits: DoubleBits)
    requires IntegralFrame(f) && (rank == f.rank || rank == 0) && KeepsSmall(nearest)
    ensures var t, es := Presented(f), ElementSize(Presented(f));
            var r := DecodeJson(ValueText(f, wide), JsonImageType(f.elementType), rank, nearest, bits);
            && r.Image?
            && r.frame
               == ImageFrame(f.rank, f.width, f.height, if f.rank == 2 then 0 else f.planes, t, t, r.frame.pixels)
            && |r.frame.pixels| == Count(f) * es
            && r.frame.pixels == Packed(SampleBytes(f, bits), es)
  {
    hide ReadText, ValueText, ValueTree, SniffFrom, Decode2, Decode3, IsMatrix, IsCube, MatrixOfJson, CubeOfJson,
         Packed, Count, ElemBytes, FrameSample;
    PrintedReads(f, wide);
    SniffRankOf(f, wide);
    if f.rank == 2 {
      DecodeMatrixOf(f, nearest, bits);
    } else {
      DecodeCubeOf(f, nearest, bits);
    }
  }

  lemma PrintedReads(f: ImageFrame, wide: WideText)
    requires IntegralFrame(f)
    ensures ReadText(ValueText(f, wide)) == Some(Arr(ValueTree(f)))
  {
    hide ReadText, Text, ValueText, ValueTree, Whole;
    ValueTextIsTree(f, wide);
    ValueTreeWhole(f);
    TextRoundTrip(Arr(ValueTree(f)));
  }

  /** The bytes a client makes of the samples. */
  function SampleBytes(f: ImageFrame, bits: DoubleBits): (elems: seq<seq<byte>>)
    requires IntegralFrame(f)
    ensures Even(elems, ElementSize(Presented(f))) && |elems| == Count(f)
  {
    seq(Count(f), k requires 0 <= k < Count(f) => ElemBytes(FrameSample(f, k) as real, Presented(f), bits))
  }

  lemma DecodeMatrixOf(f: ImageFrame, nearest: real -> real, bits: DoubleBits)
    requires KeepsSmall(nearest)
    requires IntegralFrame(f) && f.rank == 2
    ensures var j, t := Arr(ValueTree(f)), Presented(f);
            && IsMatrix(j)
            && Decode2(MatrixOfJson(j, nearest), t, bits)
               == Image(ImageFrame(2, f.width, f.height, 0, t, t, Packed(SampleBytes(f, bits), ElementSize(t))))
  {
    hide ValueTree, IsMatrix, MatrixOfJson, FrameSample, ElemBytes, NumberAt;
    MatrixOfFrame(f, nearest);
    assert Elems2(MatrixOfJson(Arr(ValueTree(f)), nearest), f.height, Presented(f), bits) == SampleBytes(f, bits);
  }

  lemma DecodeCubeOf(f: ImageFrame, nearest: real -> real, bits: DoubleBits)
    requires KeepsSmall(nearest)
    requires IntegralFrame(f) && f.rank == 3
    ensures var j, t := Arr(ValueTree(f)), Presented(f);
            && IsCube(j)
            && Decode3(CubeOfJson(j, nearest), t, bits)
               == Image(ImageFrame(3, f.width, f.height, f.planes, t, t, Packed(SampleBytes(f, bits), ElementSize(t))))
  {
    hide ValueTree, IsCube, CubeOfJson, FrameSample, ElemBytes, NumberAt3;
    CubeOfFrame(f, nearest);
    var v := CubeOfJson(Arr(ValueTree(f)), nearest);
    assert Elems3(v, f.height, f.planes, Presented(f), bits) == SampleBytes(f, bits);
  }

  /** The presentation type has room for every sample; Double has room for every 32-bit integer. */
  predicate SamplesFit(f: ImageFrame)
    requires IntegralFrame(f)
  {
    forall k: nat | k < Count(f) ::
      if Presented(f) == IMG_INT16 then -0x8000 <= FrameSample(f, k) < 0x8000
      else if Presented(f) == IMG_INT32 then -0x8000_0000 <= FrameSample(f, k) < 0x8000_0000
      else true
  }

  /** float64 tells small integers apart. */
  ghost predicate Exact(bits: DoubleBits) {
    forall m: int, n: int | Small(m) && Small(n) && bits(m as real) == bits(n as real) :: m == n
  }

  /** Some choice does: a sign and 32 bits. */
  lemma SomeDoubleBits() returns (bits: DoubleBits)
    ensures Exact(bits)
  {
    bits := SignedWord;
    forall m: int, n: int | Small(m) && Small(n) && bits(m as real) == bits(n as real)
      ensures m == n
    {
      assert SignedWord(m as real)[..4] == Word32Bytes(ToWord32(if m < 0 then -m else m));
      assert SignedWord(n as real)[..4] == Word32Bytes(ToWord32(if n < 0 then -n else n));
      assert SignedWord(m as real)[4] == SignedWord(n as real)[4];
      assert Le32(SignedWord(m as real)[..4], 0) == Le32(SignedWord(n as real)[..4], 0);
    }
  }

  function SignedWord(x: real): (s: seq<byte>)
    ensures |s| == 8
  {
    Word32Bytes(ToWord32(if x < 0.0 then -(x.Floor) else x.Floor)) + [if x < 0.0 then 1 else 0, 0, 0, 0]
  }

  /** Samples of at most 32 signed bits always fit when they are shown as Int32. */
  lemma Int32Fits(f: ImageFrame)
    requires IntegralFrame(f) && Presented(f) == IMG_INT32 && f.Transmit() != IMG_UINT32
    ensures SamplesFit(f)
  {
  }

  lemma PackedWord16(elems: seq<seq<byte>>, k: nat)
    requires k < |elems| && Even(elems, 2)
    ensures Le16(Packed(elems, 2), k * 2) == Le16(elems[k], 0)
  {
    PackedAt(elems, 2, k, 0);
    PackedAt(elems, 2, k, 1);
  }

  lemma PackedWord32(elems: seq<seq<byte>>, k: nat)
    requires k < |elems| && Even(elems, 4)
    ensures Le32(Packed(elems, 4), k * 4) == Le32(elems[k], 0)
  {
    PackedAt(elems, 4, k, 0);
    PackedAt(elems, 4, k, 1);
    PackedAt(elems, 4, k, 2);
    PackedAt(elems, 4, k, 3);
  }

  lemma TruncInteger(v: int)
    ensures Trunc(v as real) == v
  {
  }

  lemma WordsReadBack(v: int)
    ensures ToInt16(Le16(Word16Bytes(v % 0x1_0000), 0)) == ToInt16(v)
    ensures ToInt32(Le32(Word32Bytes(ToWord32(v)), 0)) == ToInt32(v)
  {
  }

  lemma PackedSample(elems: seq<seq<byte>>, k: nat, t: int32, v: int, bits: DoubleBits)
    requires k < |elems| && Even(elems, ElementSize(t))
    requires t == IMG_INT16 || t == IMG_INT32
    requires elems[k] == ElemBytes(v as real, t, bits)
    ensures (k + 1) * ElementSize(t) <= |elems| * ElementSize(t)
    ensures Sample(Packed(elems, ElementSize(t)), k, t) == if t == IMG_INT16 then ToInt16(v) else ToInt32(v)
  {
    hide Packed, Le16, Le32, Word16Bytes, Word32Bytes, ToInt16, ToInt32;
    TruncInteger(v);
    MulMonotone(k + 1, |elems|, ElementSize(t));
    WordsReadBack(v);
    if t == IMG_INT32 {
      PackedWord32(elems, k);
    } else {
      PackedWord16(elems, k);
    }
  }

  lemma PackedSlice(elems: seq<seq<byte>>, es: nat, k: nat)
    requires k < |elems| && Even(elems, es)
    ensures k * es + es <= |elems| * es && Packed(elems, es)[k * es..k * es + es] == elems[k]
  {
    MulMonotone(k + 1, |elems|, es);
    forall j | 0 <= j < es
      ensures Packed(elems, es)[k * es + j] == elems[k][j]
    {
      PackedAt(elems, es, k, j);
    }
  }

  /** Element k of a frame of integers or of float64s is the number n. */
  predicate Shows(g: ImageFrame, k: nat, n: int, bits: DoubleBits)
    requires Printable(g) && (Integral(g.Transmit()) || g.Transmit() == IMG_DOUBLE) && k < Count(g)
  {
    MulMonotone(k + 1, Count(g), ElementSize(g.Transmit()));
    if Integral(g.Transmit()) then Sample(g.pixels, k, g.Transmit()) == n
    else g.pixels[k * 8..k * 8 + 8] == bits(n as real)
  }

  /** g, perhaps in another type, has at every index the number of f and no other. */
  ghost predicate SameSamples(g: ImageFrame, f: ImageFrame, bits: DoubleBits) {
    && IntegralFrame(f) && Printable(g) && (Integral(g.Transmit()) || g.Transmit() == IMG_DOUBLE)
    && Count(g) == Count(f)
    && forall k: nat, n: int | k < Count(f) && Small(n) :: Shows(g, k, n, bits) <==> n == FrameSample(f, k)
  }

  /** What a decoded frame shows at one index. */
  lemma DecodedShows(g: ImageFrame, t: int32, elems: seq<seq<byte>>, k: nat, v: int, n: int, bits: DoubleBits)
    requires t == IMG_INT16 || t == IMG_INT32 || (t == IMG_DOUBLE && Exact(bits))
    requires Even(elems, ElementSize(t)) && g.pixels == Packed(elems, ElementSize(t)) && g.Transmit() == t
    requires Printable(g) && k < Count(g) == |elems| && elems[k] == ElemBytes(v as real, t, bits)
    requires Small(v) && Small(n)
    ensures Shows(g, k, n, bits) <==>
              n == if t == IMG_INT16 then ToInt16(v) else if t == IMG_INT32 then ToInt32(v) else v
  {
    hide Packed, Count;
    if t == IMG_DOUBLE {
      PackedSlice(elems, 8, k);
      assert g.pixels[k * 8..k * 8 + 8] == bits(v as real);
    } else {
      PackedSample(elems, k, t, v, bits);
    }
  }

  /**
   * Printed as JSON and decoded, an integer frame has the same dimensions and at every index the same sample,
   * exactly when the type it is presented in has room for its samples.
   */
  lemma JsonRoundTrip(f: ImageFrame, wide: WideText, rank: int, nearest: real -> real, bits: DoubleBits)
    requires IntegralFrame(f) && (rank == f.rank || rank == 0)
    requires KeepsSmall(nearest) && (Presented(f) == IMG_DOUBLE ==> Exact(bits))
    ensures var r := DecodeJson(ValueText(f, wide), JsonImageType(f.elementType), rank, nearest, bits);
            && r.Image?
            && r.frame.rank == f.rank && r.frame.width == f.width && r.frame.height == f.height
            && r.frame.planes == (if f.rank == 2 then 0 else f.planes)
            && (SameSamples(r.frame, f, bits) <==> SamplesFit(f))
  {
    hide Packed, DecodeJson, ValueText, Shows, FrameSample, ElemBytes, Exact;
    var t := Presented(f);
    DecodePrinted(f, wide, rank, nearest, bits);
    var g := DecodeJson(ValueText(f, wide), JsonImageType(f.elementType), rank, nearest, bits).frame;
    var elems := SampleBytes(f, bits);
    assert PlanesOf(g) == PlanesOf(f) && Count(g) == Count(f);
    forall k: nat, n: int | k < Count(f) && Small(n)
      ensures Small(FrameSample(f, k))
      ensures Shows(g, k, n, bits) <==>
                n == if t == IMG_INT16 then ToInt16(FrameSample(f, k))
                     else if t == IMG_INT32 then ToInt32(FrameSample(f, k)) else FrameSample(f, k)
    {
      SampleSmall(f, k);
      DecodedShows(g, t, elems, k, FrameSample(f, k), n, bits);
    }
    Fitting(f, g, bits);
  }

  /** What a client makes of an answer, whether or not the envelope names the rank. */
  function Received(a: Response, ranked: bool, nearest: real -> real, bits: DoubleBits): JsonResult
    requires a.Envelope?
  {
    DecodeJson(a.value, a.jsonType, if ranked then a.rank else 0, nearest, bits)
  }

  /**
   * The type a frame announces has room for what it transmits, whenever these are the same type, and whenever a Byte,
   * UInt16 or Int32 frame does not transmit UInt32: the client then gets every sample as it is.
   */
  lemma SamplesArrive(f: ImageFrame, wide: WideText, ranked: bool, nearest: real -> real, bits: DoubleBits)
    requires KeepsSmall(nearest) && Exact(bits)
    requires Answer(f, wide).Envelope? && f.Transmit() in {6, 1, 8, 2, 9}
    requires f.transmissionElementType in {0, f.elementType}
             || (f.elementType in {6, 8, 2} && f.transmissionElementType != 9)
    ensures IntegralFrame(f)
    ensures var a := Answer(f, wide);
            && a.rank == f.rank
            && (var r := Received(a, ranked, nearest, bits);
                && r.Image? && r.frame.rank == f.rank && r.frame.width == f.width && r.frame.height == f.height
                && SameSamples(r.frame, f, bits))
  {
    hide DecodeJson, ValueText, SameSamples, Exact;
    var rank := if ranked then f.rank else 0;
    JsonRoundTrip(f, wide, rank, nearest, bits);
    hide JsonImageType, JsonElementType;
    RoomForSamples(f);
  }

  lemma RoomForSamples(f: ImageFrame)
    requires IntegralFrame(f)
    requires f.transmissionElementType in {0, f.elementType}
             || (f.elementType in {6, 8, 2} && f.transmissionElementType != 9)
    ensures SamplesFit(f)
  {
    hide Count;
    forall k: nat | k < Count(f)
      ensures if Presented(f) == IMG_INT16 then -0x8000 <= FrameSample(f, k) < 0x8000
              else if Presented(f) == IMG_INT32 then -0x8000_0000 <= FrameSample(f, k) < 0x8000_0000
              else true
    {
      SampleRange(f, k);
    }
  }

  /** The range of a sample, by the type it is transmitted in. */
  lemma SampleRange(f: ImageFrame, k: nat)
    requires IntegralFrame(f) && k < Count(f)
    ensures var t, v := f.Transmit(), FrameSample(f, k);
            && (t == 6 ==> 0 <= v < 0x100) && (t == 8 ==> 0 <= v < 0x1_0000)
            && (t == 1 ==> -0x8000 <= v < 0x8000) && (t == 2 ==> -0x8000_0000 <= v < 0x8000_0000)
            && (t == 9 ==> 0 <= v < 0x1_0000_0000)
  {
  }

  lemma Fitting(f: ImageFrame, g: ImageFrame, bits: DoubleBits)
    requires IntegralFrame(f) && Printable(g) && (Integral(g.Transmit()) || g.Transmit() == IMG_DOUBLE)
    requires Count(g) == Count(f)
    requires var t := Presented(f);
             forall k: nat, n: int | k < Count(f) && Small(n) ::
               && Small(FrameSample(f, k))
               && (Shows(g, k, n, bits) <==>
                     n == if t == IMG_INT16 then ToInt16(FrameSample(f, k))
                          else if t == IMG_INT32 then ToInt32(FrameSample(f, k)) else FrameSample(f, k))
    ensures SameSamples(g, f, bits) <==> SamplesFit(f)
  {
    hide Shows, FrameSample, Count;
    if SameSamples(g, f, bits) {
      forall k: nat | k < Count(f)
        ensures Shows(g, k, FrameSample(f, k), bits) && Small(FrameSample(f, k))
      {
        assert Small(0);
      }
    }
  }

  /** The JSON fallback and the ImageBytes transport give a client the same samples under the same condition. */
  lemma TransportsAgree(f: ImageFrame, wide: WideText, rank: int, nearest: real -> real, bits: DoubleBits,
                        clientTx: word32, serverTx: word32)
    requires IntegralFrame(f) && Fits(f) && (rank == f.rank || rank == 0)
    requires KeepsSmall(nearest) && (Presented(f) == IMG_DOUBLE ==> Exact(bits))
    ensures var viaJson := DecodeJson(ValueText(f, wide), JsonImageType(f.elementType), rank, nearest, bits);
            var viaBytes := Decode(Encoded(f, clientTx, serverTx));
            && viaJson.Image? && viaBytes.Frame?
            && (SameSamples(viaJson.frame, viaBytes.frame, bits) <==> SamplesFit(f))
  {
    hide DecodeJson, ValueText, Shows, Decode, Encoded;
    JsonRoundTrip(f, wide, rank, nearest, bits);
    RoundTrip(f, clientTx, serverTx);
    NormalisedSamples(f);
  }

  lemma NormalisedSamples(f: ImageFrame)
    requires IntegralFrame(f)
    ensures var g := Normalised(f);
            && IntegralFrame(g) && Count(g) == Count(f)
            && forall k: nat | k < Count(f) :: FrameSample(g, k) == FrameSample(f, k)
  {
    assert Normalised(f).Transmit() == f.Transmit();
  }
}
