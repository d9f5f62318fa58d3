/**
 * The plain JSON ImageArray: the server's printer (server/imagearray.go) and the client's decoder
 * (client/imagearray.go).
 */
module ImageJson {
  import opened Bytes
  import opened Grid
  import opened ImageBytes
  import opened Decimal
  import opened JsonArrays
  import opened TextJoin

  // ---- printing ----

  /** The envelope's Type field. */
  function JsonImageType(t: int32): int {
    if t == IMG_INT16 then 1
    else if t == IMG_BYTE || t == IMG_UINT16 || t == IMG_INT32 then 2
    else if t == IMG_UINT32 || t == IMG_INT64 || t == IMG_UINT64 || t == IMG_SINGLE || t == IMG_DOUBLE then 3
    else 0
  }

  /** The element types whose samples are integers of at most 32 bits. */
  predicate Integral(t: int32) {
    t == IMG_BYTE || t == IMG_INT16 || t == IMG_UINT16 || t == IMG_INT32 || t == IMG_UINT32
  }

  /** Element i of little-endian pixels. */
  function Sample(pix: seq<byte>, i: nat, t: int32): int
    requires Integral(t) && (i + 1) * ElementSize(t) <= |pix|
  {
    if t == IMG_BYTE then pix[i]
    else if t == IMG_INT16 then ToInt16(Le16(pix, i * 2))
    else if t == IMG_UINT16 then Le16(pix, i * 2)
    else if t == IMG_INT32 then ToInt32(Le32(pix, i * 4))
    else Le32(pix, i * 4)
  }

  /** How strconv prints the elements of the other types: a function of their bytes. */
  type WideText = (seq<byte>, int32) -> string

  /** appendJSONElem. */
  function ElemText(pix: seq<byte>, i: nat, t: int32, wide: WideText): string
    requires (i + 1) * ElementSize(t) <= |pix|
  {
    if Integral(t) then IntText(Sample(pix, i, t))
    else if ElementSize(t) > 0 then
      var at := i * ElementSize(t);
      assert at + ElementSize(t) == (i + 1) * ElementSize(t);
      wide(pix[at..at + ElementSize(t)], t)
    else "0"
  }

  function PlanesOf(f: ImageFrame): int {
    if f.rank == 2 then 1 else f.planes
  }

  /** The frames that can be printed. */
  predicate Printable(f: ImageFrame) {
    var es := ElementSize(f.Transmit());
    && es > 0 && f.width > 0 && f.height > 0 && PlanesOf(f) > 0
    && (f.rank == 2 || f.rank == 3)
    && |f.pixels| == f.width * f.height * PlanesOf(f) * es
  }

  /** How many elements a frame has. */
  function Count(f: ImageFrame): nat
    requires Printable(f)
  {
    CountPositive(f.width, f.height, PlanesOf(f));
    f.width * f.height * PlanesOf(f)
  }

  lemma CountPositive(w: nat, h: nat, p: nat)
    requires w > 0 && h > 0 && p > 0
    ensures w * h * p > 0
  {
  }

  /** The element printed for column x, row y and plane p. */
  function ElemIndex(f: ImageFrame, x: nat, y: nat, p: nat): nat
    requires Printable(f)
  {
    if f.rank == 2 then Mix(y, x, f.width) else Mix(Mix(x, y, f.height), p, f.planes)
  }

  lemma ElemIndexBound(f: ImageFrame, x: nat, y: nat, p: nat)
    requires Printable(f) && x < f.width && y < f.height && p < PlanesOf(f)
    ensures ElemIndex(f, x, y, p) < Count(f)
    ensures (ElemIndex(f, x, y, p) + 1) * ElementSize(f.Transmit()) <= |f.pixels|
  {
    var es := ElementSize(f.Transmit());
    if f.rank == 2 {
      MixBound(y, x, f.height, f.width);
      assert f.height * f.width == f.width * f.height * 1;
    } else {
      MixBound(x, y, f.width, f.height);
      MixBound(Mix(x, y, f.height), p, f.width * f.height, f.planes);
    }
    MulMonotone(ElemIndex(f, x, y, p) + 1, Count(f), es);
  }

  function PlaneText(f: ImageFrame, x: nat, y: nat, p: nat, wide: WideText): string
    requires Printable(f) && x < f.width && y < f.height && p < PlanesOf(f)
  {
    ElemIndexBound(f, x, y, p);
    ElemText(f.pixels, ElemIndex(f, x, y, p), f.Transmit(), wide)
  }

  function PlaneTexts(f: ImageFrame, x: nat, y: nat, wide: WideText): (s: seq<string>)
    requires Printable(f) && x < f.width && y < f.height
    ensures |s| == PlanesOf(f)
  {
    seq(PlanesOf(f), p requires 0 <= p < PlanesOf(f) => PlaneText(f, x, y, p, wide))
  }

  /** The text for one cell: a number for rank 2, an array of planes for rank 3. */
  function CellText(f: ImageFrame, x: nat, y: nat, wide: WideText): string
    requires Printable(f) && x < f.width && y < f.height
  {
    if f.rank == 2 then PlaneText(f, x, y, 0, wide) else Bracket(PlaneTexts(f, x, y, wide))
  }

  function CellTexts(f: ImageFrame, x: nat, wide: WideText): (s: seq<string>)
    requires Printable(f) && x < f.width
    ensures |s| == f.height
  {
    seq(f.height, y requires 0 <= y < f.height => CellText(f, x, y, wide))
  }

  function ColumnTexts(f: ImageFrame, wide: WideText): (s: seq<string>)
    requires Printable(f)
    ensures |s| == f.width
  {
    seq(f.width, x requires 0 <= x < f.width => Bracket(CellTexts(f, x, wide)))
  }

  function ValueText(f: ImageFrame, wide: WideText): string
    requires Printable(f)
  {
    Bracket(ColumnTexts(f, wide))
  }

  /** What the server answers: an error, or the envelope's Type, Rank and Value. */
  datatype Response = MalformedFrame | Envelope(jsonType: int, rank: int, value: string)

  /** The answer to a request for the image. */
  function Answer(f: ImageFrame, wide: WideText): Response {
    if Printable(f) then Envelope(JsonImageType(f.elementType), f.rank, ValueText(f, wide)) else MalformedFrame
  }

  /** Which frames are answered, by the sizes and types the standard numbers, and the type and rank announced. */
  lemma AnsweredExactly(f: ImageFrame, wide: WideText)
    ensures var t := f.Transmit();
            var es := if t == 6 then 1 else if t in {1, 8} then 2 else if t in {2, 4, 9} then 4
                      else if t in {3, 5, 7} then 8 else 0;
            Answer(f, wide).Envelope? <==>
              && es > 0 && f.width > 0 && f.height > 0
              && ((f.rank == 2 && |f.pixels| == f.width * f.height * es)
                  || (f.rank == 3 && f.planes > 0 && |f.pixels| == f.width * f.height * f.planes * es))
    ensures var a := Answer(f, wide);
            a.Envelope? ==>
              && a.rank == f.rank
              && a.jsonType == (if f.elementType == 1 then 1 else if f.elementType in {2, 6, 8} then 2
                                else if f.elementType in {3, 4, 5, 7, 9} then 3 else 0)
  {
    hide ValueText;
    assert f.rank == 2 ==> f.width * f.height * PlanesOf(f) == f.width * f.height;
  }

  /** A separator before every part but the first. */
  lemma NextPart(parts: seq<string>, i: nat)
    requires i < |parts|
    ensures Join(parts[..i + 1]) == Join(parts[..i]) + (if i > 0 then "," else "") + parts[i]
  {
    JoinMore(parts[..i], parts[i]);
    assert parts[..i + 1] == parts[..i] + [parts[i]];
  }

  method WriteImageArrayJSON(f: ImageFrame, wide: WideText) returns (r: Response)
    ensures r == Answer(f, wide)
  {
    var transmit := f.transmissionElementType;
    if transmit == 0 {
      transmit := f.elementType;
    }
    var es := ElementSize(transmit);
    var planes := f.planes;
    if f.rank == 2 {
      planes := 1;
    }
    if es == 0 || f.width <= 0 || f.height <= 0 || planes <= 0 || (f.rank != 2 && f.rank != 3) ||
       |f.pixels| != f.width * f.height * planes * es {
      return MalformedFrame;
    }
    var out := WriteColumns(f, wide);
    return Envelope(JsonImageType(f.elementType), f.rank, out);
  }

  method WriteColumns(f: ImageFrame, wide: WideText) returns (out: string)
    requires Printable(f)
    ensures out == ValueText(f, wide)
  {
    hide Join;
    ghost var columns := ColumnTexts(f, wide);
    out := "[";
    JoinNothing();
    for x := 0 to f.width
      invariant out == "[" + Join(columns[..x])
    {
      NextPart(columns, x);
      if x > 0 {
        out := out + ",";
      }
      out := WriteColumn(out, f, x, wide);
    }
    assert columns[..f.width] == columns;
    out := out + "]";
  }

  lemma JoinNothing()
    ensures Join([]) == ""
  {
  }

  method WriteColumn(before: string, f: ImageFrame, x: nat, wide: WideText) returns (out: string)
    requires Printable(f) && x < f.width
    ensures out == before + Bracket(CellTexts(f, x, wide))
  {
    hide Join;
    ghost var cells := CellTexts(f, x, wide);
    out := before + "[";
    JoinNothing();
    for y := 0 to f.height
      invariant out == before + "[" + Join(cells[..y])
    {
      NextPart(cells, y);
      if y > 0 {
        out := out + ",";
      }
      if f.rank == 2 {
        ElemIndexBound(f, x, y, 0);
        out := out + ElemText(f.pixels, y * f.width + x, f.Transmit(), wide);
        continue;
      }
      out := WriteCell(out, f, x, y, wide);
    }
    assert cells[..f.height] == cells;
    out := out + "]";
  }

  lemma PlaneAt(f: ImageFrame, x: nat, y: nat, p: nat, wide: WideText)
    requires Printable(f) && f.rank == 3 && x < f.width && y < f.height && p < f.planes
    ensures ((x * f.height + y) * f.planes + p + 1) * ElementSize(f.Transmit()) <= |f.pixels|
    ensures PlaneTexts(f, x, y, wide)[p]
            == ElemText(f.pixels, (x * f.height + y) * f.planes + p, f.Transmit(), wide)
  {
    hide ElemText;
    ElemIndexBound(f, x, y, p);
  }

  method WriteCell(before: string, f: ImageFrame, x: nat, y: nat, wide: WideText) returns (out: string)
    requires Printable(f) && f.rank == 3 && x < f.width && y < f.height
    ensures out == before + Bracket(PlaneTexts(f, x, y, wide))
  {
    hide Join, ElemText;
    ghost var planes := PlaneTexts(f, x, y, wide);
    out := before + "[";
    JoinNothing();
    for p := 0 to f.planes
      invariant out == before + "[" + Join(planes[..p])
    {
      NextPart(planes, p);
      if p > 0 {
        out := out + ",";
      }
      PlaneAt(f, x, y, p, wide);
      out := out + ElemText(f.pixels, (x * f.height + y) * f.planes + p, f.Transmit(), wide);
    }
    assert planes[..f.planes] == planes;
    out := out + "]";
  }
}
