/** The axis swap of cmd/fault_proxy/main.go: a frame already on the wire, transposed without decoding it. */
module FaultProxy {
  import opened Bytes
  import opened Grid
  import opened ImageBytes

  function GetI32(b: seq<byte>, off: nat): int32 {
    if off + 4 > |b| then 0 else ToInt32(Le32(b, off))
  }

  function PutI32(b: seq<byte>, off: nat, v: int32): (t: seq<byte>)
    ensures |t| == |b|
  {
    if off + 4 > |b| then b else Poke32(b, off, ToWord32(v))
  }

  const DATA_START := 16
  const TX_TYPE := 24
  const RANK := 28
  const DIM1 := 32
  const DIM2 := 36

  /** What the fault reads from the header. */
  datatype Geometry = Geometry(dataStart: int32, rank: int32, w: int32, h: int32, elem: nat) {
    /** The length of the pixel block. */
    function Size(): int {
      var columns: int := w;
      columns * h * elem
    }

    predicate Swappable(length: nat) {
      && elem > 0 && rank == 2 && w > 0 && h > 0
      && IMAGE_BYTES_HEADER_LEN <= dataStart && dataStart + Size() <= length
    }

    lemma SizePositive()
      requires w > 0 && h > 0 && elem > 0
      ensures Size() > 0
    {
    }
  }

  function GeometryOf(body: seq<byte>): Geometry {
    Geometry(GetI32(body, DATA_START), GetI32(body, RANK), GetI32(body, DIM1), GetI32(body, DIM2),
             ElementSize(GetI32(body, TX_TYPE)))
  }

  /** The contents of a fresh Go byte slice. */
  function Zeros(n: nat): seq<byte> {
    seq(n, _ => 0)
  }

  function SwappedHead(head: seq<byte>, g: Geometry): (out: seq<byte>)
    ensures |out| == |head|
  {
    PutI32(PutI32(head, DIM1, g.h), DIM2, g.w)
  }

  /** The rewritten body: the bytes before the pixels with dim1 and dim2 exchanged, the block, and zeros after it. */
  function Swapped(body: seq<byte>): (out: seq<byte>)
    ensures |out| == |body|
  {
    var g := GeometryOf(body);
    if |body| < IMAGE_BYTES_HEADER_LEN || !g.Swappable(|body|) then body
    else
      g.SizePositive();
      var end := g.dataStart + g.Size();
      SwappedHead(body[..g.dataStart], g)
      + Transposed(body[g.dataStart..end], g.w, g.h, g.elem)
      + Zeros(|body| - end)
  }

  method TransposeFrame(body: seq<byte>) returns (out: seq<byte>)
    ensures out == Swapped(body)
  {
    if |body| < IMAGE_BYTES_HEADER_LEN {
      return body;
    }
    var g := GeometryOf(body);
    if g.elem <= 0 {
      return body;
    }
    if g.rank != 2 || g.w <= 0 || g.h <= 0 || g.dataStart < IMAGE_BYTES_HEADER_LEN || g.dataStart + g.Size() > |body| {
      return body;
    }
    out := Rewrite(body, g);
  }

  /** The part of transposeFrame after its guards. */
  method Rewrite(body: seq<byte>, g: Geometry) returns (out: seq<byte>)
    requires |body| >= IMAGE_BYTES_HEADER_LEN && g == GeometryOf(body) && g.Swappable(|body|)
    ensures out == Swapped(body)
  {
    var dataStart, end := BlockBounds(g, |body|);
    var buf := new byte[|body|](_ => 0);
    ghost var fresh0 := buf[..];
    Copy(buf, 0, body[..dataStart]);
    ghost var copied := buf[..];
    TransposeBlock(buf, dataStart, body[dataStart..end], g.w, g.h, g.elem);
    ghost var filled := buf[..];
    PutUint32(buf, DIM1, ToWord32(g.h));
    PutUint32(buf, DIM2, ToWord32(g.w));
    RewriteDone(body, g, dataStart, end, fresh0, copied, filled);
    return buf[..];
  }

  /** Where the pixel block lies. */
  method BlockBounds(g: Geometry, length: nat) returns (dataStart: nat, end: nat)
    requires g.Swappable(length)
    ensures dataStart == g.dataStart && end == dataStart + g.Size()
    ensures IMAGE_BYTES_HEADER_LEN <= dataStart < end <= length
    ensures g.w > 0 && g.h > 0 && g.elem > 0
  {
    g.SizePositive();
    dataStart, end := g.dataStart, g.dataStart + g.Size();
  }

  lemma RewriteDone(body: seq<byte>, g: Geometry, dataStart: nat, end: nat,
                    fresh0: seq<byte>, copied: seq<byte>, filled: seq<byte>)
    requires |body| >= IMAGE_BYTES_HEADER_LEN && g == GeometryOf(body) && g.Swappable(|body|)
    requires dataStart == g.dataStart && end == dataStart + g.Size()
    requires IMAGE_BYTES_HEADER_LEN <= dataStart < end <= |body|
    requires |fresh0| == |body| && forall k | 0 <= k < |fresh0| :: fresh0[k] == 0
    requires copied == fresh0[..0] + body[..dataStart] + fresh0[0 + |body[..dataStart]|..]
    requires var block := Transposed(body[dataStart..end], g.w, g.h, g.elem);
             filled == copied[..dataStart] + block + copied[dataStart + |body[dataStart..end]|..]
    ensures Poke32(Poke32(filled, DIM1, ToWord32(g.h)), DIM2, ToWord32(g.w)) == Swapped(body)
  {
    hide GetI32, ElementSize, Swapped, Transposed, Poke32;
    SwappedIs(body, g);
    var head, block := body[..dataStart], Transposed(body[dataStart..end], g.w, g.h, g.elem);
    var zeros := Zeros(|body| - end);
    TailOfCopy(copied, head, fresh0, block, zeros);
    assert filled == head + (block + zeros);
    SwappedHeader(head, block + zeros, g);
    assert SwappedHead(head, g) + (block + zeros) == SwappedHead(head, g) + block + zeros;
  }

  lemma SwappedIs(body: seq<byte>, g: Geometry)
    requires |body| >= IMAGE_BYTES_HEADER_LEN && g == GeometryOf(body) && g.Swappable(|body|)
    ensures g.Size() > 0
    ensures var end := g.dataStart + g.Size();
            Swapped(body) == SwappedHead(body[..g.dataStart], g)
                             + Transposed(body[g.dataStart..end], g.w, g.h, g.elem) + Zeros(|body| - end)
  {
    hide GetI32, ElementSize, Transposed, SwappedHead, Zeros;
    g.SizePositive();
  }

  lemma TailOfCopy(copied: seq<byte>, head: seq<byte>, fresh0: seq<byte>, block: seq<byte>, zeros: seq<byte>)
    requires |fresh0| == |head| + |block| + |zeros|
    requires forall k | 0 <= k < |fresh0| :: fresh0[k] == 0
    requires zeros == Zeros(|zeros|)
    requires copied == fresh0[..0] + head + fresh0[0 + |head|..]
    ensures copied[..|head|] == head && copied[|head| + |block|..] == zeros
  {
  }

  lemma SwappedHeader(head: seq<byte>, rest: seq<byte>, g: Geometry)
    requires |head| >= IMAGE_BYTES_HEADER_LEN
    ensures Poke32(Poke32(head + rest, DIM1, ToWord32(g.h)), DIM2, ToWord32(g.w)) == SwappedHead(head, g) + rest
  {
    var h, w := ToWord32(g.h), ToWord32(g.w);
    PokeFirst(head, rest, DIM1, h);
    PokeFirst(Poke32(head, DIM1, h), rest, DIM2, w);
  }

  lemma PokeFirst(head: seq<byte>, rest: seq<byte>, at: nat, w: word32)
    requires at + 4 <= |head|
    ensures Poke32(head + rest, at, w) == Poke32(head, at, w) + rest
  {
  }

  /** The copy loop over the pixels of the new frame, one of its columns after the other. */
  method TransposeBlock(buf: array<byte>, at: nat, src: seq<byte>, w: nat, h: nat, elem: nat)
    requires elem > 0 && |src| == w * h * elem && at + |src| <= buf.Length
    modifies buf
    ensures buf[..] == old(buf[..at]) + Transposed(src, w, h, elem) + old(buf[at + |src|..])
  {
    hide Offset;
    ghost var target, before := Transposed(src, w, h, elem), buf[..];
    Corners(w, h, elem);
    for xp := 0 to h
      invariant Offset(xp, 0, w, elem, 0) <= |src|
      invariant buf[..] == Filled(before, at, target, Offset(xp, 0, w, elem, 0))
    {
      for yp := 0 to w
        invariant Offset(xp, yp, w, elem, 0) <= |src|
        invariant buf[..] == Filled(before, at, target, Offset(xp, yp, w, elem, 0))
      {
        CopyTransposed(buf, at, src, w, h, elem, xp, yp, before);
      }
      NextElement(xp, 0, w, elem);
    }
  }

  lemma Corners(w: nat, h: nat, elem: nat)
    ensures Offset(0, 0, w, elem, 0) == 0 && Offset(h, 0, w, elem, 0) == w * h * elem
  {
  }

  method CopyTransposed(buf: array<byte>, at: nat, src: seq<byte>, w: nat, h: nat, elem: nat, xp: nat, yp: nat,
                        ghost before: seq<byte>)
    requires elem > 0 && |src| == w * h * elem && at + |src| <= buf.Length == |before|
    requires xp < h && yp < w && Offset(xp, yp, w, elem, 0) <= |src|
    requires buf[..] == Filled(before, at, Transposed(src, w, h, elem), Offset(xp, yp, w, elem, 0))
    modifies buf
    ensures Offset(xp, yp + 1, w, elem, 0) <= |src|
    ensures buf[..] == Filled(before, at, Transposed(src, w, h, elem), Offset(xp, yp + 1, w, elem, 0))
  {
    hide Transposed, Offset, Mix, Filled;
    TransposedRun(src, w, h, elem, xp, yp);
    NextElement(xp, yp, w, elem);
    ElementStart(yp, xp, h, elem);
    ElementStart(xp, yp, w, elem);
    var si, di := (yp * h + xp) * elem, (xp * w + yp) * elem;
    FilledMore(before, at, Transposed(src, w, h, elem), di, elem);
    Copy(buf, at + di, src[si..si + elem]);
  }

  /** The buffer with the first p bytes of the block in place. */
  ghost function Filled(before: seq<byte>, at: nat, block: seq<byte>, p: nat): seq<byte>
    requires p <= |block| && at + |block| <= |before|
  {
    before[..at] + block[..p] + before[at + p..]
  }

  lemma FilledMore(before: seq<byte>, at: nat, block: seq<byte>, p: nat, n: nat)
    requires p + n <= |block| && at + |block| <= |before|
    ensures var s := Filled(before, at, block, p);
            s[..at + p] + block[p..p + n] + s[at + p + n..] == Filled(before, at, block, p + n)
  {
  }

  lemma ElementStart(a: nat, b: nat, base: nat, n: nat)
    ensures Offset(a, b, base, n, 0) == (a * base + b) * n
  {
  }

  lemma NextElement(a: nat, b: nat, base: nat, n: nat)
    ensures Offset(a, b + 1, base, n, 0) == Offset(a, b, base, n, 0) + n
    ensures Offset(a, base, base, n, 0) == Offset(a + 1, 0, base, n, 0)
  {
  }

  /** One element of the transposed block. */
  lemma TransposedRun(src: seq<byte>, w: nat, h: nat, elem: nat, xp: nat, yp: nat)
    requires |src| == w * h * elem && xp < h && yp < w && elem > 0
    ensures var si, di := Offset(yp, xp, h, elem, 0), Offset(xp, yp, w, elem, 0);
            && si + elem <= |src| && di + elem <= |src|
            && Transposed(src, w, h, elem)[di..di + elem] == src[si..si + elem]
  {
    var si, di := Offset(yp, xp, h, elem, 0), Offset(xp, yp, w, elem, 0);
    TransposedAt(src, w, h, elem, yp, xp, elem - 1);
    var target := Transposed(src, w, h, elem);
    var a, b := target[di..di + elem], src[si..si + elem];
    forall j: nat | j < elem
      ensures a[j] == b[j]
    {
      TransposedAt(src, w, h, elem, yp, xp, j);
    }
  }

  // ---- what the swap does to whole responses ----

  /** The response has nothing but zeros after its pixel block, or the fault does not touch it. */
  predicate NothingAfterBlock(body: seq<byte>) {
    var g := GeometryOf(body);
    |body| < IMAGE_BYTES_HEADER_LEN || !g.Swappable(|body|) ||
    (g.SizePositive(); forall k | g.dataStart + g.Size() <= k < |body| :: body[k] == 0)
  }

  function Flip(g: Geometry): Geometry {
    g.(w := g.h, h := g.w)
  }

  /** Writing a word that is already there changes nothing. */
  lemma PokeSame(s: seq<byte>, at: nat)
    requires at + 4 <= |s|
    ensures Poke32(s, at, Le32(s, at)) == s
  {
    Word32Unique(s, at);
    assert s == s[..at] + s[at..at + 4] + s[at + 4..];
  }

  lemma PokeTwice(s: seq<byte>, a: word32, b: word32, a': word32, b': word32)
    requires |s| >= IMAGE_BYTES_HEADER_LEN
    ensures Poke32(Poke32(Poke32(Poke32(s, DIM1, a), DIM2, b), DIM1, a'), DIM2, b')
            == Poke32(Poke32(s, DIM1, a'), DIM2, b')
  {
    hide Poke32;
    var x := Poke32(s, DIM1, a);
    PokeApart(x, DIM1, DIM2, a', b);
    PokeOver(s, DIM1, a, a');
    PokeOver(Poke32(s, DIM1, a'), DIM2, b, b');
  }

  lemma PokeOver(s: seq<byte>, at: nat, a: word32, b: word32)
    requires at + 4 <= |s|
    ensures Poke32(Poke32(s, at, a), at, b) == Poke32(s, at, b)
  {
    var t := Poke32(s, at, a);
    assert t[..at] == s[..at] && t[at + 4..] == s[at + 4..];
  }

  lemma PokeApart(s: seq<byte>, at: nat, other: nat, a: word32, b: word32)
    requires at + 4 <= other && other + 4 <= |s|
    ensures Poke32(Poke32(s, other, b), at, a) == Poke32(Poke32(s, at, a), other, b)
  {
    var front, mid, back := s[..at], s[at + 4..other], s[other + 4..];
    assert Poke32(Poke32(s, other, b), at, a) == front + Word32Bytes(a) + mid + Word32Bytes(b) + back;
    assert Poke32(Poke32(s, at, a), other, b) == front + Word32Bytes(a) + mid + Word32Bytes(b) + back;
  }

  lemma WordOfInt32(w: word32)
    ensures ToWord32(ToInt32(w)) == w
  {
  }

  lemma HeadRestored(head: seq<byte>, g: Geometry)
    requires |head| >= IMAGE_BYTES_HEADER_LEN && g == GeometryOf(head)
    ensures SwappedHead(SwappedHead(head, g), Flip(g)) == head
  {
    WordOfInt32(Le32(head, DIM1));
    WordOfInt32(Le32(head, DIM2));
    PokeTwice(head, ToWord32(g.h), ToWord32(g.w), ToWord32(g.w), ToWord32(g.h));
    PokeSame(head, DIM1);
    PokeSame(head, DIM2);
  }

  lemma GeometryOfPrefix(head: seq<byte>, rest: seq<byte>)
    requires |head| >= IMAGE_BYTES_HEADER_LEN
    ensures GeometryOf(head + rest) == GeometryOf(head)
  {
  }

  lemma GeometryFlips(head: seq<byte>, g: Geometry)
    requires |head| >= IMAGE_BYTES_HEADER_LEN && g == GeometryOf(head)
    ensures GeometryOf(SwappedHead(head, g)) == Flip(g)
  {
    var h, w := ToWord32(g.h), ToWord32(g.w);
    var mid := Poke32(head, DIM1, h);
    PokeReads(head, DIM1, h, DATA_START);
    PokeReads(head, DIM1, h, TX_TYPE);
    PokeReads(head, DIM1, h, RANK);
    PokeReads(head, DIM1, h, DIM1);
    PokeReads(mid, DIM2, w, DATA_START);
    PokeReads(mid, DIM2, w, TX_TYPE);
    PokeReads(mid, DIM2, w, RANK);
    PokeReads(mid, DIM2, w, DIM1);
    PokeReads(mid, DIM2, w, DIM2);
    SignedThroughWord(g.h);
    SignedThroughWord(g.w);
  }

  /** The fault applied twice gives the response back exactly when nothing but zeros follows its pixels. */
  lemma SwapTwice(body: seq<byte>)
    ensures Swapped(Swapped(body)) == body <==> NothingAfterBlock(body)
  {
    var g := GeometryOf(body);
    if |body| >= IMAGE_BYTES_HEADER_LEN && g.Swappable(|body|) {
      SwappedIs(body, g);
      var end := g.dataStart + g.Size();
      var head, block, tail := body[..g.dataStart], body[g.dataStart..end], body[end..];
      SwapTwiceParts(body, g, head, block, tail);
      assert tail == Zeros(|tail|) <==> NothingAfterBlock(body);
      assert head + block + Zeros(|tail|) == body <==> tail == Zeros(|tail|) by {
        assert body == head + block + tail;
        assert (head + block + Zeros(|tail|))[end..] == Zeros(|tail|);
      }
    }
  }

  lemma SwapTwiceParts(body: seq<byte>, g: Geometry, head: seq<byte>, block: seq<byte>, tail: seq<byte>)
    requires |body| >= IMAGE_BYTES_HEADER_LEN && g == GeometryOf(body) && g.Swappable(|body|)
    requires body == head + block + tail && |head| == g.dataStart && |block| == g.Size()
    ensures Swapped(Swapped(body)) == head + block + Zeros(|tail|)
  {
    hide GetI32, ElementSize, Swapped, Transposed, Poke32;
    var head', block', tail' := SwappedHead(head, g), Transposed(block, g.w, g.h, g.elem), Zeros(|tail|);
    SwappedIs(body, g);
    assert body[..g.dataStart] == head && body[g.dataStart..g.dataStart + g.Size()] == block;
    var body' := head' + block' + tail';
    assert Swapped(body) == body';
    assert head + (block + tail) == body && head' + (block' + tail') == body';
    GeometryOfPrefix(head, block + tail);
    GeometryOfPrefix(head', block' + tail');
    GeometryFlips(head, g);
    var g' := Flip(g);
    FlipSize(g);
    SwappedIs(body', g');
    assert body'[..g.dataStart] == head' && body'[g.dataStart..g.dataStart + g.Size()] == block';
    TransposedTwice(block, g.w, g.h, g.elem);
    HeadRestored(head, g);
  }

  lemma FlipSize(g: Geometry)
    ensures Flip(g).Size() == g.Size()
  {
  }

  /** A rank-2 frame with its axes exchanged. */
  function Flipped(f: ImageFrame): ImageFrame
    requires f.Transposes()
  {
    f.(width := f.height, height := f.width,
       pixels := Transposed(f.pixels, f.height, f.width, ElementSize(f.Transmit())))
  }

  /** The header's dimensions are read signed. */
  predicate SignedDimensions(f: ImageFrame) {
    f.width < 0x8000_0000 && f.height < 0x8000_0000
  }

  lemma EncodedGeometry(f: ImageFrame, clientTx: word32, serverTx: word32)
    requires Fits(f) && f.Transposes()
    ensures var data := Encoded(f, clientTx, serverTx);
            GeometryOf(data) == Geometry(IMAGE_BYTES_HEADER_LEN, 2, ToInt32(f.width), ToInt32(f.height),
                                         ElementSize(f.Transmit()))
  {
    FieldReads(FrameFields(f, clientTx, serverTx), WirePixels(f));
    SignedThroughWord(f.Transmit());
  }

  lemma FlippedWire(f: ImageFrame)
    requires Fits(f) && f.Transposes()
    ensures Flipped(f).Transposes()
    ensures WirePixels(Flipped(f)) == f.pixels
    ensures |f.pixels| == f.width * f.height * ElementSize(f.Transmit())
    ensures Transposed(WirePixels(f), f.width, f.height, ElementSize(f.Transmit())) == f.pixels
  {
    var es := ElementSize(f.Transmit());
    assert f.width * f.height * es == f.height * f.width * es;
    TransposedTwice(f.pixels, f.height, f.width, es);
  }

  /** Exchanging the two dimension words of a frame's header gives the header of the flipped frame. */
  lemma FlippedHeader(f: ImageFrame, clientTx: word32, serverTx: word32, g: Geometry)
    requires Fits(f) && f.Transposes()
    requires g.w == f.width && g.h == f.height
    ensures SwappedHead(HeaderBytes(FrameFields(f, clientTx, serverTx)), g)
            == HeaderBytes(FrameFields(Flipped(f), clientTx, serverTx))
  {
    var fields, fields' := FrameFields(f, clientTx, serverTx), FrameFields(Flipped(f), clientTx, serverTx);
    var w: word32, h: word32 := f.width, f.height;
    assert fields' == fields[8 := h][9 := w];
    SwapFields(fields, h, w);
  }

  lemma SwapFields(fields: Fields, h: word32, w: word32)
    ensures Poke32(Poke32(HeaderBytes(fields), DIM1, h), DIM2, w) == HeaderBytes(fields[8 := h][9 := w])
  {
    var head := HeaderBytes(fields);
    HeaderHasFields(fields, []);
    assert head + [] == head;
    PokeField(head, fields, 8, h);
    PokeField(Poke32(head, DIM1, h), fields[8 := h], 9, w);
    var head' := Poke32(Poke32(head, DIM1, h), DIM2, w);
    HeaderUnique(head', fields[8 := h][9 := w]);
    assert head'[..IMAGE_BYTES_HEADER_LEN] == head';
  }

  lemma PokeField(data: seq<byte>, fields: Fields, i: nat, w: word32)
    requires i < 11 && HasFields(data, fields, 11)
    ensures HasFields(Poke32(data, 4 * i, w), fields[i := w], 11)
  {
    forall j: nat | j < 11
      ensures Le32(Poke32(data, 4 * i, w), 4 * j) == fields[i := w][j]
    {
      PokeReads(data, 4 * i, w, 4 * j);
    }
  }

  /**
   * Swapping the axes on the wire is swapping them before encoding. It needs both dimensions below 2^31, since
   * the fault reads them signed: beyond, a frame that is not square goes through unswapped.
   */
  lemma SwapCommutesWithEncode(f: ImageFrame, clientTx: word32, serverTx: word32)
    requires Fits(f) && f.Transposes()
    ensures SignedDimensions(f) ==>
              Swapped(Encoded(f, clientTx, serverTx)) == Encoded(Flipped(f), clientTx, serverTx)
    ensures f.width != f.height ==>
              (Swapped(Encoded(f, clientTx, serverTx)) == Encoded(Flipped(f), clientTx, serverTx)
               <==> SignedDimensions(f))
  {
    var data := Encoded(f, clientTx, serverTx);
    EncodedGeometry(f, clientTx, serverTx);
    FlippedWire(f);
    if SignedDimensions(f) {
      SwapSmall(f, clientTx, serverTx);
    } else if f.width != f.height {
      FieldReads(FrameFields(f, clientTx, serverTx), WirePixels(f));
      FieldReads(FrameFields(Flipped(f), clientTx, serverTx), f.pixels);
      assert Le32(data, DIM1) != Le32(Encoded(Flipped(f), clientTx, serverTx), DIM1);
      assert !GeometryOf(data).Swappable(|data|);
    }
  }

  lemma SwapSmall(f: ImageFrame, clientTx: word32, serverTx: word32)
    requires Fits(f) && f.Transposes() && SignedDimensions(f)
    ensures Swapped(Encoded(f, clientTx, serverTx)) == Encoded(Flipped(f), clientTx, serverTx)
  {
    hide GetI32, Transposed, Poke32;
    var data := Encoded(f, clientTx, serverTx);
    var g := Geometry(IMAGE_BYTES_HEADER_LEN, 2, f.width, f.height, ElementSize(f.Transmit()));
    EncodedGeometry(f, clientTx, serverTx);
    FlippedWire(f);
    assert g == GeometryOf(data);
    SwappedIs(data, g);
    FlippedHeader(f, clientTx, serverTx, g);
    assert data[..g.dataStart] == HeaderBytes(FrameFields(f, clientTx, serverTx));
    assert data[g.dataStart..g.dataStart + g.Size()] == WirePixels(f);
    assert Swapped(data) == Encoded(Flipped(f), clientTx, serverTx) + Zeros(0);
  }

  /**
   * What the fault leaves alone: anything but a rank-2 response of known samples and positive size whose pixel block
   * lies behind the header and within the body.
   */
  lemma LeftAlone(body: seq<byte>)
    requires |body| >= 44 ==>
               var start, rank := ToInt32(Le32(body, 16)), ToInt32(Le32(body, 28));
               var w, h := ToInt32(Le32(body, 32)), ToInt32(Le32(body, 36));
               var elem := ElementSize(ToInt32(Le32(body, 24)));
               rank != 2 || w <= 0 || h <= 0 || elem == 0 || start < 44 || (start as int) + w * h * elem > |body|
    ensures Swapped(body) == body
  {
    hide Le32, ToInt32, Transposed;
  }
}
