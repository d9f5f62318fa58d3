/** The client's decoder of a plain JSON ImageArray Value (client/imagearray.go). */
module ImageJsonDecode {
  import opened Bytes
  import opened Grid
  import opened ImageBytes
  import opened Decimal
  import opened JsonArrays
  import opened ImageJson

  type Row = seq<real>
  type Matrix = seq<Row>
  type Cube = seq<Matrix>

  // ---- json.Unmarshal into [][]float64 and [][][]float64 ----

  // A null leaves a zero where a number is expected and no elements where an array is. A number beyond the range of
  // float64 is an error; any other is rounded to a float64 by the parameter nearest.

  /** Rounding to nearest does not overflow: x is less than half a unit beyond the largest float64. */
  predicate InRange(x: real) {
    var limit := (Pow2(54) - 1) * Pow2(970);
    -limit as real < x < limit as real
  }

  predicate IsNumber(j: Json) {
    j.Null? || (j.Num? && InRange(j.x))
  }

  predicate IsRow(j: Json) {
    j.Null? || (j.Arr? && forall i | 0 <= i < |j.items| :: IsNumber(j.items[i]))
  }

  function RowOfJson(j: Json, nearest: real -> real): Row
    requires IsRow(j)
  {
    if j.Null? then []
    else seq(|j.items|, i requires 0 <= i < |j.items| => if j.items[i].Num? then nearest(j.items[i].x) else 0.0)
  }

  predicate IsMatrix(j: Json) {
    j.Null? || (j.Arr? && forall i | 0 <= i < |j.items| :: IsRow(j.items[i]))
  }

  function MatrixOfJson(j: Json, nearest: real -> real): (v: Matrix)
    requires IsMatrix(j)
    ensures |v| == if j.Null? then 0 else |j.items|
  {
    if j.Null? then [] else seq(|j.items|, i requires 0 <= i < |j.items| => RowOfJson(j.items[i], nearest))
  }

  predicate IsCube(j: Json) {
    j.Null? || (j.Arr? && forall i | 0 <= i < |j.items| :: IsMatrix(j.items[i]))
  }

  function CubeOfJson(j: Json, nearest: real -> real): (v: Cube)
    requires IsCube(j)
    ensures |v| == if j.Null? then 0 else |j.items|
  {
    if j.Null? then [] else seq(|j.items|, i requires 0 <= i < |j.items| => MatrixOfJson(j.items[i], nearest))
  }

  // ---- sniffRank ----

  function SniffFrom(value: string, depth: nat): nat {
    if value == [] then depth
    else if IsSpace(value[0]) then SniffFrom(value[1..], depth)
    else if value[0] == '[' then
      if depth + 1 == 3 then 3 else SniffFrom(value[1..], depth + 1)
    else depth
  }

  method SniffRank(value: string) returns (rank: nat)
    ensures rank == SniffFrom(value, 0)
  {
    var depth := 0;
    for i := 0 to |value|
      invariant SniffFrom(value, 0) == SniffFrom(value[i..], depth)
    {
      assert value[i..][1..] == value[i + 1..];
      var b := value[i];
      if b == ' ' || b == '\t' || b == '\n' || b == '\r' {
      } else if b == '[' {
        depth := depth + 1;
        if depth == 3 {
          return 3;
        }
      } else {
        return depth;
      }
    }
    return depth;
  }

  predicate Spaces(s: string) {
    forall i | 0 <= i < |s| :: s[i] in {' ', '\t', '\n', '\r'}
  }

  /** White space does not count. */
  lemma {:induction false} SniffSpaces(s: string, value: string, depth: nat)
    requires Spaces(s)
    ensures SniffFrom(s + value, depth) == SniffFrom(value, depth)
  {
    if s == "" {
      assert s + value == value;
    } else {
      assert (s + value)[1..] == s[1..] + value;
      SniffSpaces(s[1..], value, depth);
    }
  }

  /** Counting: up to three opening brackets, with white space between them, and nothing behind anything else. */
  lemma SniffMeans(s: string, c: char, value: string, depth: nat)
    requires Spaces(s) && depth < 3
    ensures SniffFrom(s, depth) == depth
    ensures SniffFrom(s + ['['] + value, depth) == if depth == 2 then 3 else SniffFrom(value, depth + 1)
    ensures c !in {' ', '\t', '\n', '\r', '['} ==> SniffFrom(s + [c] + value, depth) == depth
  {
    SniffSpaces(s, "", depth);
    assert s + "" == s;
    SniffSpaces(s, ['['] + value, depth);
    SniffSpaces(s, [c] + value, depth);
    assert s + ['['] + value == s + (['['] + value) && s + [c] + value == s + ([c] + value);
    assert (['['] + value)[1..] == value;
  }

  // ---- what JSON is taken for which numbers ----

  /** The numbers that are accepted: those less than half a unit beyond the largest float64, 2^1024 - 2^971. */
  lemma RangeMeans(x: real)
    ensures InRange(x) <==> -(Pow2(1024) - Pow2(970)) as real < x < (Pow2(1024) - Pow2(970)) as real
  {
    hide Pow2;
    Limit();
  }

  lemma Limit()
    ensures (Pow2(54) - 1) * Pow2(970) == Pow2(1024) - Pow2(970)
  {
    hide Pow2;
    Pow2Sum(54, 970);
    LessOne(Pow2(54), Pow2(970));
  }

  lemma LessOne(a: int, b: int)
    ensures (a - 1) * b == a * b - b
  {
  }

  /** A row is null, or an array of nulls, which are zeros, and of numbers in range, which are rounded. */
  lemma RowMeans(j: Json, nearest: real -> real)
    ensures IsRow(Json.Null) && RowOfJson(Json.Null, nearest) == []
    ensures IsRow(j) <==> j.Null? || (j.Arr? && forall i | 0 <= i < |j.items| ::
                                        j.items[i].Null? || (j.items[i].Num? && InRange(j.items[i].x)))
    ensures IsRow(j) && j.Arr? ==>
              var row := RowOfJson(j, nearest);
              && |row| == |j.items|
              && forall i | 0 <= i < |row| :: row[i] == if j.items[i].Null? then 0.0 else nearest(j.items[i].x)
  {
    hide InRange;
  }

  /** A matrix is null or an array of rows, a cube null or an array of matrices. */
  lemma ArraysMean(j: Json, nearest: real -> real)
    ensures IsMatrix(Json.Null) && MatrixOfJson(Json.Null, nearest) == []
    ensures IsCube(Json.Null) && CubeOfJson(Json.Null, nearest) == []
    ensures IsMatrix(j) <==> j.Null? || (j.Arr? && forall i | 0 <= i < |j.items| :: IsRow(j.items[i]))
    ensures IsMatrix(j) && j.Arr? ==>
              forall i | 0 <= i < |j.items| :: MatrixOfJson(j, nearest)[i] == RowOfJson(j.items[i], nearest)
    ensures IsCube(j) <==> j.Null? || (j.Arr? && forall i | 0 <= i < |j.items| :: IsMatrix(j.items[i]))
    ensures IsCube(j) && j.Arr? ==>
              forall i | 0 <= i < |j.items| :: CubeOfJson(j, nearest)[i] == MatrixOfJson(j.items[i], nearest)
  {
    hide IsRow, RowOfJson;
  }

  // ---- pixels ----

  /** math.Float64bits as little-endian bytes: any function with eight-byte results. */
  type DoubleBits = f: real -> seq<byte> | forall x :: |f(x)| == 8 witness (x => [0, 0, 0, 0, 0, 0, 0, 0])

  /** Go's conversion of a float64 to an integer: towards zero. */
  function Trunc(x: real): int {
    if x >= 0.0 then x.Floor else -(-x).Floor
  }

  /** The element type a JSON Type is decoded into. */
  function JsonElementType(jsonType: int): int32 {
    if jsonType == 1 then IMG_INT16 else if jsonType == 3 then IMG_DOUBLE else IMG_INT32
  }

  /** The bytes putElem stores for one number. */
  function ElemBytes(v: real, t: int32, bits: DoubleBits): (s: seq<byte>)
    requires t == IMG_INT16 || t == IMG_DOUBLE || t == IMG_INT32
    ensures |s| == ElementSize(t)
  {
    if t == IMG_INT16 then Word16Bytes(Trunc(v) % 0x1_0000)
    else if t == IMG_DOUBLE then bits(v)
    else Word32Bytes(ToWord32(Trunc(v)))
  }

  predicate Even(elems: seq<seq<byte>>, es: nat) {
    forall i | 0 <= i < |elems| :: |elems[i]| == es
  }

  /** Elements of es bytes each, one after the other. */
  function Packed(elems: seq<seq<byte>>, es: nat): (s: seq<byte>)
    requires Even(elems, es)
    ensures |s| == |elems| * es
  {
    seq(|elems| * es, b requires 0 <= b < |elems| * es =>
      MixSplit(b, |elems|, es);
      elems[b / es][b % es])
  }

  lemma PackedAt(elems: seq<seq<byte>>, es: nat, i: nat, j: nat)
    requires Even(elems, es) && i < |elems| && j < es
    ensures i * es + j < |elems| * es && Packed(elems, es)[i * es + j] == elems[i][j]
  {
    MixBound(i, j, |elems|, es);
    MixInverse(i, j, es);
  }

  /** Storing an element in place replaces that element and no other byte. */
  lemma PackedStore(elems: seq<seq<byte>>, es: nat, i: nat, e: seq<byte>)
    requires Even(elems, es) && i < |elems| && |e| == es
    ensures i * es + es <= |elems| * es
    ensures var p := Packed(elems, es);
            p[..i * es] + e + p[i * es + es..] == Packed(elems[i := e], es)
  {
    MulMonotone(i + 1, |elems|, es);
    var p, q := Packed(elems, es), Packed(elems[i := e], es);
    var s := p[..i * es] + e + p[i * es + es..];
    forall b | 0 <= b < |elems| * es
      ensures s[b] == q[b]
    {
      PackedStored(elems, es, i, e, b);
      StoredByte(p, e, i * es, b);
    }
  }

  /** One byte after the store. */
  lemma PackedStored(elems: seq<seq<byte>>, es: nat, i: nat, e: seq<byte>, b: nat)
    requires Even(elems, es) && i < |elems| && |e| == es && b < |elems| * es
    ensures Packed(elems[i := e], es)[b] == if i * es <= b < i * es + es then e[b - i * es] else Packed(elems, es)[b]
  {
    MixSplit(b, |elems|, es);
    BlockOrder(b, i, es);
  }

  /** Where byte b lies, told by the element it belongs to. */
  lemma BlockOrder(b: nat, i: nat, es: nat)
    requires es > 0
    ensures b / es < i ==> b < i * es
    ensures b / es > i ==> b >= i * es + es
    ensures b / es == i ==> b == i * es + b % es
  {
    var a := b / es;
    assert b == Mix(a, b % es, es);
    if a < i {
      MulMonotone(a + 1, i, es);
    } else if a > i {
      MulMonotone(i + 1, a, es);
    }
  }

  lemma StoredByte(p: seq<byte>, e: seq<byte>, at: nat, b: nat)
    requires at + |e| <= |p| && b < |p|
    ensures (p[..at] + e + p[at + |e|..])[b] == if at <= b < at + |e| then e[b - at] else p[b]
  {
  }

  method PutElem(pix: array<byte>, i: nat, v: real, t: int32, bits: DoubleBits, ghost elems: seq<seq<byte>>)
    returns (ghost elems': seq<seq<byte>>)
    requires t == IMG_INT16 || t == IMG_DOUBLE || t == IMG_INT32
    requires Even(elems, ElementSize(t)) && i < |elems| && pix[..] == Packed(elems, ElementSize(t))
    modifies pix
    ensures elems' == elems[i := ElemBytes(v, t, bits)]
    ensures Even(elems', ElementSize(t)) && pix[..] == Packed(elems', ElementSize(t))
  {
    var es := ElementSize(t);
    var e := ElemBytes(v, t, bits);
    PackedStore(elems, es, i, e);
    Copy(pix, i * es, e);
    elems' := elems[i := e];
  }

  // ---- decodeImageArrayJSON ----

  datatype JsonResult =
    | Image(frame: ImageFrame)
    | Unmarshal
    | EmptyDimensions
    | Ragged(column: nat)
    | RaggedCell(column: nat, row: nat)
    | UnsupportedRank(rank: int)

  /** The number for pixel k of a rank-2 frame w columns wide. */
  function NumberAt(v: Matrix, k: nat): real
    requires |v| > 0
  {
    if k / |v| < |v[k % |v|]| then v[k % |v|][k / |v|] else 0.0
  }

  function Elems2(v: Matrix, h: nat, t: int32, bits: DoubleBits): (e: seq<seq<byte>>)
    requires |v| > 0 && (t == IMG_INT16 || t == IMG_DOUBLE || t == IMG_INT32)
    ensures |e| == |v| * h && Even(e, ElementSize(t))
  {
    seq(|v| * h, k requires 0 <= k < |v| * h => ElemBytes(NumberAt(v, k), t, bits))
  }

  /** The first column, from x on, that is not h long; |v| when there is none. */
  function FirstRagged(v: Matrix, h: nat, x: nat): (r: nat)
    requires x <= |v|
    ensures x <= r <= |v| && (r < |v| ==> |v[r]| != h)
    ensures forall i | x <= i < r :: |v[i]| == h
    decreases |v| - x
  {
    if x == |v| || |v[x]| != h then x else FirstRagged(v, h, x + 1)
  }

  function Decode2(v: Matrix, t: int32, bits: DoubleBits): JsonResult
    requires t == IMG_INT16 || t == IMG_DOUBLE || t == IMG_INT32
  {
    if |v| == 0 || |v[0]| == 0 then EmptyDimensions
    else
      var h := |v[0]|;
      var x := FirstRagged(v, h, 0);
      if x < |v| then Ragged(x)
      else Image(ImageFrame(2, |v|, h, 0, t, t, Packed(Elems2(v, h, t, bits), ElementSize(t))))
  }

  /** The elements of the columns before x are in place, and of column x those above row y. */
  ghost predicate Placed2(elems: seq<seq<byte>>, target: seq<seq<byte>>, w: nat, x: nat, y: nat)
    requires w > 0
  {
    && |elems| == |target|
    && forall k | 0 <= k < |elems| && (k % w < x || (k % w == x && k / w < y)) :: elems[k] == target[k]
  }

  lemma PlaceNext(elems: seq<seq<byte>>, target: seq<seq<byte>>, w: nat, h: nat, x: nat, y: nat)
    requires x < w && y < h && |target| == w * h && Placed2(elems, target, w, x, y)
    ensures Mix(y, x, w) < w * h && Mix(y, x, w) % w == x && Mix(y, x, w) / w == y
    ensures var i := Mix(y, x, w); Placed2(elems[i := target[i]], target, w, x, y + 1)
  {
    assert w * h == h * w;
    MixBound(y, x, h, w);
    MixInverse(y, x, w);
    var i := Mix(y, x, w);
    forall k | 0 <= k < |elems| && k % w == x && k / w == y
      ensures k == i
    {
      MixSplit(k, h, w);
    }
  }

  lemma PlaceColumn(elems: seq<seq<byte>>, target: seq<seq<byte>>, w: nat, h: nat, x: nat)
    requires w > 0 && |target| == w * h && Placed2(elems, target, w, x, h)
    ensures Placed2(elems, target, w, x + 1, 0)
  {
    assert w * h == h * w;
    forall k | 0 <= k < |elems| && k % w == x
      ensures k / w < h
    {
      MixSplit(k, h, w);
    }
  }

  method DecodeMatrix(v: Matrix, t: int32, bits: DoubleBits) returns (r: JsonResult)
    requires t == IMG_INT16 || t == IMG_DOUBLE || t == IMG_INT32
    ensures r == Decode2(v, t, bits)
  {
    hide Packed, ElemBytes;
    var width := |v|;
    if width == 0 || |v[0]| == 0 {
      return EmptyDimensions;
    }
    var height, es := |v[0]|, ElementSize(t);
    ghost var target := Elems2(v, height, t, bits);
    var pix := new byte[width * height * es](_ => 0);
    ghost var elems := ZeroElems(width * height, es, pix[..]);
    for x := 0 to width
      invariant FirstRagged(v, height, 0) == FirstRagged(v, height, x)
      invariant Even(elems, es) && |elems| == width * height && pix[..] == Packed(elems, es)
      invariant Placed2(elems, target, width, x, 0)
    {
      if |v[x]| != height {
        return Ragged(x);
      }
      elems := FillColumn(pix, v, x, height, t, bits, elems, target);
    }
    assert elems == target;
    return Image(ImageFrame(2, width, height, 0, t, t, pix[..]));
  }

  /** The inner loop: one column of numbers, each stored in its row. */
  method FillColumn(pix: array<byte>, v: Matrix, x: nat, height: nat, t: int32, bits: DoubleBits,
                    ghost elems0: seq<seq<byte>>, ghost target: seq<seq<byte>>)
    returns (ghost elems: seq<seq<byte>>)
    requires t == IMG_INT16 || t == IMG_DOUBLE || t == IMG_INT32
    requires x < |v| && |v[x]| == height && target == Elems2(v, height, t, bits)
    requires Even(elems0, ElementSize(t)) && pix[..] == Packed(elems0, ElementSize(t))
    requires Placed2(elems0, target, |v|, x, 0)
    modifies pix
    ensures Even(elems, ElementSize(t)) && |elems| == |elems0| && pix[..] == Packed(elems, ElementSize(t))
    ensures Placed2(elems, target, |v|, x + 1, 0)
  {
    elems := elems0;
    for y := 0 to height
      invariant Even(elems, ElementSize(t)) && pix[..] == Packed(elems, ElementSize(t))
      invariant Placed2(elems, target, |v|, x, y)
    {
      PlaceNext(elems, target, |v|, height, x, y);
      elems := PutElem(pix, y * |v| + x, v[x][y], t, bits, elems);
    }
    PlaceColumn(elems, target, |v|, height, x);
  }

  /** A zeroed buffer as elements. */
  lemma ZeroElems(n: nat, es: nat, pix: seq<byte>) returns (elems: seq<seq<byte>>)
    requires |pix| == n * es && forall b | 0 <= b < |pix| :: pix[b] == 0
    ensures |elems| == n && Even(elems, es) && Packed(elems, es) == pix
  {
    elems := seq(n, _ => seq(es, _ => 0));
    forall b | 0 <= b < n * es
      ensures Packed(elems, es)[b] == 0
    {
      MixSplit(b, n, es);
    }
  }

  // ---- rank 3 ----

  /** The number at wire index n of a [width][height][planes] array. */
  function NumberAt3(v: Cube, h: nat, planes: nat, n: nat): real
    requires h > 0 && planes > 0
  {
    var x, y, p := n / planes / h, n / planes % h, n % planes;
    if x < |v| && y < |v[x]| && p < |v[x][y]| then v[x][y][p] else 0.0
  }

  function Elems3(v: Cube, h: nat, planes: nat, t: int32, bits: DoubleBits): (e: seq<seq<byte>>)
    requires h > 0 && planes > 0 && (t == IMG_INT16 || t == IMG_DOUBLE || t == IMG_INT32)
    ensures |e| == |v| * h * planes && Even(e, ElementSize(t))
  {
    seq(|v| * h * planes, n requires 0 <= n < |v| * h * planes => ElemBytes(NumberAt3(v, h, planes, n), t, bits))
  }

  /** The first column or cell of the wrong size, from column x on. */
  function Fault3(v: Cube, h: nat, planes: nat, x: nat): (r: Option<JsonResult>)
    requires x <= |v|
    ensures r == None ==> forall i | x <= i < |v| :: |v[i]| == h && FirstRagged(v[i], planes, 0) == h
    decreases |v| - x
  {
    if x == |v| then None
    else if |v[x]| != h then Some(Ragged(x))
    else
      var y := FirstRagged(v[x], planes, 0);
      if y < h then Some(RaggedCell(x, y)) else Fault3(v, h, planes, x + 1)
  }

  function Decode3(v: Cube, t: int32, bits: DoubleBits): JsonResult
    requires t == IMG_INT16 || t == IMG_DOUBLE || t == IMG_INT32
  {
    if |v| == 0 || |v[0]| == 0 || |v[0][0]| == 0 then EmptyDimensions
    else
      var h, planes := |v[0]|, |v[0][0]|;
      match Fault3(v, h, planes, 0)
      case Some(fault) => fault
      case None => Image(ImageFrame(3, |v|, h, planes, t, t, Packed(Elems3(v, h, planes, t, bits), ElementSize(t))))
  }

  lemma CellIndex(x: nat, y: nat, p: nat, w: nat, h: nat, planes: nat)
    requires x < w && y < h && p < planes
    ensures var n := Mix(Mix(x, y, h), p, planes);
            n < w * h * planes && n / planes / h == x && n / planes % h == y && n % planes == p
  {
    MixBound(x, y, w, h);
    MixBound(Mix(x, y, h), p, w * h, planes);
    MixInverse(Mix(x, y, h), p, planes);
    MixInverse(x, y, h);
  }

  lemma ElemAt3(v: Cube, x: nat, y: nat, p: nat, h: nat, planes: nat, t: int32, bits: DoubleBits)
    requires t == IMG_INT16 || t == IMG_DOUBLE || t == IMG_INT32
    requires x < |v| && y < |v[x]| == h && p < |v[x][y]| == planes
    ensures var n := Mix(Mix(x, y, h), p, planes);
            n < |Elems3(v, h, planes, t, bits)| && Elems3(v, h, planes, t, bits)[n] == ElemBytes(v[x][y][p], t, bits)
  {
    CellIndex(x, y, p, |v|, h, planes);
  }

  lemma CellEnd(a: nat, planes: nat)
    ensures Mix(a, planes, planes) == Mix(a + 1, 0, planes)
  {
  }

  lemma ColumnEnd(x: nat, h: nat, y: nat)
    ensures Mix(x, h, h) == Mix(x + 1, 0, h) && Mix(x, y + 1, h) == Mix(x, y, h) + 1
  {
  }

  method DecodeCube(v: Cube, t: int32, bits: DoubleBits) returns (r: JsonResult)
    requires t == IMG_INT16 || t == IMG_DOUBLE || t == IMG_INT32
    ensures r == Decode3(v, t, bits)
  {
    var width := |v|;
    if width == 0 || |v[0]| == 0 || |v[0][0]| == 0 {
      return EmptyDimensions;
    }
    var height, planes, es := |v[0]|, |v[0][0]|, ElementSize(t);
    ghost var target := Elems3(v, height, planes, t, bits);
    var pix := new byte[width * height * planes * es](_ => 0);
    ghost var elems := ZeroElems(width * height * planes, es, pix[..]);
    var fault := FillCube(pix, v, height, planes, t, bits, elems);
    match fault
    case Some(f) => return f;
    case None => return Image(ImageFrame(3, width, height, planes, t, t, pix[..]));
  }

  /** The two outer loops: every cell in wire order, until one has the wrong size. */
  method FillCube(pix: array<byte>, v: Cube, height: nat, planes: nat, t: int32, bits: DoubleBits,
                  ghost elems0: seq<seq<byte>>)
    returns (fault: Option<JsonResult>)
    requires height > 0 && planes > 0 && (t == IMG_INT16 || t == IMG_DOUBLE || t == IMG_INT32)
    requires Even(elems0, ElementSize(t)) && |elems0| == |v| * height * planes
    requires pix[..] == Packed(elems0, ElementSize(t))
    modifies pix
    ensures fault == Fault3(v, height, planes, 0)
    ensures fault == None ==> pix[..] == Packed(Elems3(v, height, planes, t, bits), ElementSize(t))
  {
    ghost var target, elems := Elems3(v, height, planes, t, bits), elems0;
    for x := 0 to |v|
      invariant Fault3(v, height, planes, 0) == Fault3(v, height, planes, x)
      invariant Prefix(elems, target, ElementSize(t), Mix(Mix(x, 0, height), 0, planes))
      invariant pix[..] == Packed(elems, ElementSize(t))
    {
      if |v[x]| != height {
        return Some(Ragged(x));
      }
      for y := 0 to height
        invariant FirstRagged(v[x], planes, 0) == FirstRagged(v[x], planes, y)
        invariant Prefix(elems, target, ElementSize(t), Mix(Mix(x, y, height), 0, planes))
        invariant pix[..] == Packed(elems, ElementSize(t))
      {
        if |v[x][y]| != planes {
          return Some(RaggedCell(x, y));
        }
        elems := FillCell(pix, v, x, y, height, planes, t, bits, elems);
        ColumnEnd(x, height, y);
      }
      ColumnEnd(x, height, 0);
    }
    PrefixWhole(elems, target, ElementSize(t), |v|, height, planes);
    return None;
  }

  ghost predicate Prefix(elems: seq<seq<byte>>, target: seq<seq<byte>>, es: nat, n: nat) {
    Even(elems, es) && |elems| == |target| && n <= |target| && elems[..n] == target[..n]
  }

  lemma PrefixWhole(elems: seq<seq<byte>>, target: seq<seq<byte>>, es: nat, w: nat, h: nat, planes: nat)
    requires |target| == w * h * planes && Prefix(elems, target, es, Mix(Mix(w, 0, h), 0, planes))
    ensures elems == target
  {
    assert elems == elems[..|target|] && target == target[..|target|];
  }

  method FillCell(pix: array<byte>, v: Cube, x: nat, y: nat, height: nat, planes: nat, t: int32, bits: DoubleBits,
                  ghost elems0: seq<seq<byte>>)
    returns (ghost elems: seq<seq<byte>>)
    requires height > 0 && planes > 0 && (t == IMG_INT16 || t == IMG_DOUBLE || t == IMG_INT32)
    requires x < |v| && y < |v[x]| == height && |v[x][y]| == planes
    requires Prefix(elems0, Elems3(v, height, planes, t, bits), ElementSize(t), Mix(Mix(x, y, height), 0, planes))
    requires pix[..] == Packed(elems0, ElementSize(t))
    modifies pix
    ensures Prefix(elems, Elems3(v, height, planes, t, bits), ElementSize(t), Mix(Mix(x, y, height) + 1, 0, planes))
    ensures pix[..] == Packed(elems, ElementSize(t))
  {
    hide Elems3, ElemBytes, Packed;
    ghost var target := Elems3(v, height, planes, t, bits);
    elems := elems0;
    for p := 0 to planes
      invariant Prefix(elems, target, ElementSize(t), Mix(Mix(x, y, height), p, planes))
      invariant pix[..] == Packed(elems, ElementSize(t))
    {
      CellIndex(x, y, p, |v|, height, planes);
      ElemAt3(v, x, y, p, height, planes, t, bits);
      ghost var n := Mix(Mix(x, y, height), p, planes);
      elems := PutElem(pix, (x * height + y) * planes + p, v[x][y][p], t, bits, elems);
      assert elems[..n + 1] == elems[..n] + [target[n]] && target[..n + 1] == target[..n] + [target[n]];
    }
    CellEnd(Mix(x, y, height), planes);
  }

  // ---- what is decoded, and what is refused ----

  /** Towards zero: the integer part, with the sign of the number. */
  lemma TruncMeans(x: real)
    ensures x >= 0.0 ==> 0.0 <= Trunc(x) as real <= x < Trunc(x) as real + 1.0
    ensures x <= 0.0 ==> Trunc(x) as real - 1.0 < x <= Trunc(x) as real <= 0.0
  {
  }

  /** Columns make a picture exactly if there are some, none is empty and all are equally long. */
  lemma Decode2Exactly(v: Matrix, t: int32, bits: DoubleBits)
    requires t == IMG_INT16 || t == IMG_DOUBLE || t == IMG_INT32
    ensures var r := Decode2(v, t, bits);
            && (r == EmptyDimensions <==> |v| == 0 || |v[0]| == 0)
            && (r.Image? <==> |v| > 0 && |v[0]| > 0 && forall x | 0 <= x < |v| :: |v[x]| == |v[0]|)
            && (forall x: nat :: r == Ragged(x) <==>
                  && 0 < x < |v| && |v[0]| > 0 && |v[x]| != |v[0]|
                  && forall i | 0 <= i < x :: |v[i]| == |v[0]|)
            && (r.Image? ==>
                  && r.frame == ImageFrame(2, |v|, |v[0]|, 0, t, t, r.frame.pixels)
                  && |r.frame.pixels| == |v| * |v[0]| * ElementSize(t))
  {
    hide Packed, Elems2;
  }

  /** The number of column x and row y is stored where row-major order has it. */
  lemma Decode2At(v: Matrix, t: int32, bits: DoubleBits, x: nat, y: nat)
    requires (t == IMG_INT16 || t == IMG_DOUBLE || t == IMG_INT32) && Decode2(v, t, bits).Image?
    requires x < |v| && y < |v[0]|
    ensures var pixels, at, es := Decode2(v, t, bits).frame.pixels, (y * |v| + x) * ElementSize(t), ElementSize(t);
            at + es <= |pixels| && pixels[at..at + es] == ElemBytes(v[x][y], t, bits)
  {
    hide Packed, ElemBytes;
    var h, k, es := |v[0]|, y * |v| + x, ElementSize(t);
    MixBound(y, x, h, |v|);
    MixInverse(y, x, |v|);
    assert h * |v| == |v| * h;
    var elems := Elems2(v, h, t, bits);
    assert elems[k] == ElemBytes(v[x][y], t, bits);
    MulMonotone(k + 1, |elems|, es);
    forall j | 0 <= j < es
      ensures Packed(elems, es)[k * es + j] == elems[k][j]
    {
      PackedAt(elems, es, k, j);
    }
  }

  /** Cells make a picture exactly if there are some and all columns and all cells are equally long. */
  lemma Decode3Exactly(v: Cube, t: int32, bits: DoubleBits)
    requires t == IMG_INT16 || t == IMG_DOUBLE || t == IMG_INT32
    ensures var r := Decode3(v, t, bits);
            && (r == EmptyDimensions <==> |v| == 0 || |v[0]| == 0 || |v[0][0]| == 0)
            && (r.Image? <==> |v| > 0 && |v[0]| > 0 && |v[0][0]| > 0 && Box(v, |v[0]|, |v[0][0]|))
            && (r.Image? ==>
                  && r.frame == ImageFrame(3, |v|, |v[0]|, |v[0][0]|, t, t, r.frame.pixels)
                  && |r.frame.pixels| == |v| * |v[0]| * |v[0][0]| * ElementSize(t))
  {
    hide Packed, Elems3, Box;
    if |v| > 0 && |v[0]| > 0 && |v[0][0]| > 0 {
      FaultExactly(v, |v[0]|, |v[0][0]|, 0);
      assert v[0..] == v;
    }
  }

  predicate Box(v: Cube, h: nat, planes: nat) {
    forall x | 0 <= x < |v| :: |v[x]| == h && forall y | 0 <= y < |v[x]| :: |v[x][y]| == planes
  }

  /** The fault is the first one in reading order: a column of the wrong size, or a cell of one of the right size. */
  lemma {:induction false} FaultExactly(v: Cube, h: nat, planes: nat, x: nat)
    requires x <= |v|
    ensures Fault3(v, h, planes, x) == None <==> Box(v[x..], h, planes)
    ensures match Fault3(v, h, planes, x)
            case None => true
            case Some(Ragged(i)) => x <= i < |v| && |v[i]| != h && Box(v[x..i], h, planes)
            case Some(RaggedCell(i, j)) =>
              && x <= i < |v| && |v[i]| == h && j < h && |v[i][j]| != planes && Box(v[x..i], h, planes)
              && forall y | 0 <= y < j :: |v[i][y]| == planes
            case _ => false
    decreases |v| - x
  {
    if x < |v| {
      FaultExactly(v, h, planes, x + 1);
      assert v[x..] == [v[x]] + v[x + 1..];
      assert forall i | x < i <= |v| :: v[x..i] == [v[x]] + v[x + 1..i];
    }
  }

  // ---- the decoder ----

  function DecodeJson(value: string, jsonType: int, rank: int, nearest: real -> real, bits: DoubleBits): JsonResult {
    var t := JsonElementType(jsonType);
    var k := if rank == 0 then SniffFrom(value, 0) else rank;
    if k == 2 then
      match ReadText(value)
      case Some(j) => if IsMatrix(j) then Decode2(MatrixOfJson(j, nearest), t, bits) else Unmarshal
      case None => Unmarshal
    else if k == 3 then
      match ReadText(value)
      case Some(j) => if IsCube(j) then Decode3(CubeOfJson(j, nearest), t, bits) else Unmarshal
      case None => Unmarshal
    else UnsupportedRank(k)
  }

  /** The element type of what is decoded: Int16 for Type 1, Double for 3, and Int32 for anything else. */
  lemma DecodedType(value: string, jsonType: int, rank: int, nearest: real -> real, bits: DoubleBits)
    ensures var r := DecodeJson(value, jsonType, rank, nearest, bits);
            r.Image? ==>
              && r.frame.elementType == r.frame.transmissionElementType
              && r.frame.elementType == (if jsonType == 1 then 1 else if jsonType == 3 then 3 else 2)
              && r.frame.rank in {2, 3} && (rank != 0 ==> r.frame.rank == rank)
    ensures rank !in {0, 2, 3} ==>
              DecodeJson(value, jsonType, rank, nearest, bits) == UnsupportedRank(rank)
  {
    hide ReadText, MatrixOfJson, CubeOfJson, IsMatrix, IsCube, SniffFrom, Decode2, Decode3;
    var t := JsonElementType(jsonType);
    forall v: Matrix
      ensures var r := Decode2(v, t, bits);
              r.Image? ==> r.frame.rank == 2 && r.frame.elementType == r.frame.transmissionElementType == t
    {
      Decode2Exactly(v, t, bits);
    }
    forall v: Cube
      ensures var r := Decode3(v, t, bits);
              r.Image? ==> r.frame.rank == 3 && r.frame.elementType == r.frame.transmissionElementType == t
    {
      Decode3Exactly(v, t, bits);
    }
  }

  method DecodeImageArrayJSON(value: string, jsonType: int, rank: int, nearest: real -> real, bits: DoubleBits)
    returns (r: JsonResult)
    ensures r == DecodeJson(value, jsonType, rank, nearest, bits)
  {
    var k := rank;
    if k == 0 {
      k := SniffRank(value);
    }
    var t := JsonElementType(jsonType);
    if k == 2 {
      var j := ReadText(value);
      if j.None? || !IsMatrix(j.value) {
        return Unmarshal;
      }
      r := DecodeMatrix(MatrixOfJson(j.value, nearest), t, bits);
    } else if k == 3 {
      var j := ReadText(value);
      if j.None? || !IsCube(j.value) {
        return Unmarshal;
      }
      r := DecodeCube(CubeOfJson(j.value, nearest), t, bits);
    } else {
      r := UnsupportedRank(k);
    }
  }
}
