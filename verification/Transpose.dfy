/** The cache-blocked, optionally parallel transpose of alpaca/imagebytes.go, in place on the destination buffer.
    Go's slice dst[44:] is the array dst together with the offset `base` it starts at. */
module Transpose {
  import opened Bytes
  import opened Grid
  import opened Writes

  const TRANSPOSE_TILE := 64
  const PARALLEL_MIN_ELEMS := 0x10_0000

  /** The destination bytes of the elements in source rows [r0, r1) and columns [c0, c1). */
  ghost function Block(rows: nat, cols: nat, es: nat, r0: nat, r1: nat, c0: nat, c1: nat): set<nat>
  {
    set k: nat | k < rows * cols * es && rows > 0 && es > 0 &&
                 r0 <= ColOf(k, rows, es) < r1 && c0 <= RowOf(k, rows, es) < c1
  }

  /** The first n destination bytes of the element in source row r and column c. */
  ghost function Element(rows: nat, es: nat, r: nat, c: nat, n: nat): set<nat> {
    set j: nat | j < n :: Offset(c, r, rows, es, j)
  }

  /** One more element extends a run of a row by that element's bytes, none of them written before. */
  lemma BlockExtend(rows: nat, cols: nat, es: nat, r: nat, c0: nat, c: nat)
    requires r < rows && c0 <= c < cols && es > 0
    ensures Block(rows, cols, es, r, r + 1, c0, c + 1) ==
            Block(rows, cols, es, r, r + 1, c0, c) + Element(rows, es, r, c, es)
    ensures Block(rows, cols, es, r, r + 1, c0, c) !! Element(rows, es, r, c, es)
  {
    assert rows * cols * es == cols * rows * es;
    forall j: nat | j < es
      ensures var k := Offset(c, r, rows, es, j);
              k < rows * cols * es && RowOf(k, rows, es) == c && ColOf(k, rows, es) == r
    {
      OffsetBound(c, r, cols, rows, es, j);
      OffsetInverse(c, r, rows, es, j);
    }
    forall k: nat | k < rows * cols * es && RowOf(k, rows, es) == c && ColOf(k, rows, es) == r
      ensures k in Element(rows, es, r, c, es)
    {
      OffsetSplit(k, cols, rows, es);
    }
  }

  /** Finishing a row extends a block by that row. */
  lemma BlockRow(rows: nat, cols: nat, es: nat, r0: nat, r: nat, c0: nat, c1: nat)
    requires r0 <= r < rows && es > 0
    ensures Block(rows, cols, es, r0, r + 1, c0, c1) ==
            Block(rows, cols, es, r0, r, c0, c1) + Block(rows, cols, es, r, r + 1, c0, c1)
    ensures Block(rows, cols, es, r0, r, c0, c1) !! Block(rows, cols, es, r, r + 1, c0, c1)
  {
  }

  lemma BlockEmpty(rows: nat, cols: nat, es: nat, r0: nat, r1: nat, c0: nat, c1: nat)
    requires r1 <= r0 || c1 <= c0
    ensures Block(rows, cols, es, r0, r1, c0, c1) == {}
  {
  }

  lemma NewByte(rows: nat, cols: nat, es: nat, r: nat, c: nat, j: nat)
    requires r < rows && c < cols && j < es
    ensures Element(rows, es, r, c, j + 1) == Element(rows, es, r, c, j) + {Offset(c, r, rows, es, j)}
    ensures Offset(c, r, rows, es, j) !in Element(rows, es, r, c, j)
  {
    forall i: nat | i < j
      ensures Offset(c, r, rows, es, i) != Offset(c, r, rows, es, j)
    {
      OffsetInverse(c, r, rows, es, i);
      OffsetInverse(c, r, rows, es, j);
    }
  }

  /** copy(dst[d:d+es], src[s:s+es]) for one element. */
  method CopyElement(dst: array<byte>, base: nat, src: seq<byte>, rows: nat, cols: nat, es: nat, r: nat, c: nat)
    returns (ghost ws: seq<Write<byte>>)
    requires |src| == rows * cols * es == dst.Length - base && es > 0
    requires r < rows && c < cols
    modifies dst
    ensures dst[..base] == old(dst[..base])
    ensures Painted(old(dst[base..]), dst[base..], ws, Transposed(src, rows, cols, es))
    ensures Indices(ws) == Element(rows, es, r, c, es)
  {
    ws := [];
    ghost var target := Transposed(src, rows, cols, es);
    for j := 0 to es
      invariant dst[..base] == old(dst[..base])
      invariant Painted(old(dst[base..]), dst[base..], ws, target)
      invariant Indices(ws) == Element(rows, es, r, c, j)
    {
      TransposedAt(src, rows, cols, es, r, c, j);
      NewByte(rows, cols, es, r, c, j);
      var d, s := (c * rows + r) * es, (r * cols + c) * es;
      ws := Store(dst, base, d + j, src[s + j], old(dst[base..]), ws, target);
    }
  }

  lemma BlockDisjoint(rows: nat, cols: nat, es: nat, r0: nat, r: nat, c0: nat, c1: nat, c: nat)
    requires r0 <= r < rows && c0 <= c < cols && es > 0
    ensures Block(rows, cols, es, r0, r, c0, c1) !! Element(rows, es, r, c, es)
  {
    BlockExtend(rows, cols, es, r, c, c);
  }

  lemma WordBytes(src: seq<byte>, rows: nat, cols: nat, r: nat, c: nat)
    requires |src| == rows * cols * 2 && r < rows && c < cols
    ensures var d, s := (c * rows + r) * 2, r * cols * 2 + c * 2;
            && d + 1 < |src| && s + 1 < |src|
            && Element(rows, 2, r, c, 2) == {d, d + 1}
            && Transposed(src, rows, cols, 2)[d] == src[s]
            && Transposed(src, rows, cols, 2)[d + 1] == src[s + 1]
  {
    assert r * cols * 2 + c * 2 == Offset(r, c, cols, 2, 0);
    NewByte(rows, cols, 2, r, c, 0);
    NewByte(rows, cols, 2, r, c, 1);
    TransposedAt(src, rows, cols, 2, r, c, 0);
    TransposedAt(src, rows, cols, 2, r, c, 1);
  }

  /** The two stores of the two-byte branch. */
  method CopyWord(dst: array<byte>, base: nat, src: seq<byte>, rows: nat, cols: nat, r: nat, c: nat, sBase: nat)
    returns (ghost ws: seq<Write<byte>>)
    requires |src| == rows * cols * 2 == dst.Length - base
    requires r < rows && c < cols && sBase == r * cols * 2
    modifies dst
    ensures dst[..base] == old(dst[..base])
    ensures Painted(old(dst[base..]), dst[base..], ws, Transposed(src, rows, cols, 2))
    ensures Indices(ws) == Element(rows, 2, r, c, 2)
  {
    ghost var target := Transposed(src, rows, cols, 2);
    var d := (c * rows + r) * 2;
    var s := sBase + c * 2;
    WordBytes(src, rows, cols, r, c);
    ws := Store(dst, base, d, src[s], old(dst[base..]), [], target);
    ws := Store(dst, base, d + 1, src[s + 1], old(dst[base..]), ws, target);
  }

  /** The one-byte branch of transposeBand, over one tile. */
  method TransposeTile1(dst: array<byte>, base: nat, src: seq<byte>, rows: nat, cols: nat,
                     rt: nat, rEnd: nat, ct: nat, cEnd: nat)
    returns (ghost ws: seq<Write<byte>>)
    requires |src| == rows * cols * 1 == dst.Length - base
    requires rt < rEnd <= rows && ct <= cEnd <= cols
    modifies dst
    ensures dst[..base] == old(dst[..base])
    ensures Painted(old(dst[base..]), dst[base..], ws, Transposed(src, rows, cols, 1))
    ensures Indices(ws) == Block(rows, cols, 1, rt, rEnd, ct, cEnd)
  {
    ws := [];
    ghost var target := Transposed(src, rows, cols, 1);
    for r := rt to rEnd
      invariant dst[..base] == old(dst[..base])
      invariant Painted(old(dst[base..]), dst[base..], ws, target)
      invariant Indices(ws) == Block(rows, cols, 1, rt, r, ct, cEnd)
    {
      var sBase := r * cols;
      for c := ct to cEnd
        invariant dst[..base] == old(dst[..base])
        invariant Painted(old(dst[base..]), dst[base..], ws, target)
        invariant Indices(ws) == Block(rows, cols, 1, rt, r, ct, cEnd) + Block(rows, cols, 1, r, r + 1, ct, c)
      {
        BlockExtend(rows, cols, 1, r, ct, c);
        BlockDisjoint(rows, cols, 1, rt, r, ct, cEnd, c);
        NewByte(rows, cols, 1, r, c, 0);
        TransposedAt(src, rows, cols, 1, r, c, 0);
        ws := Store(dst, base, c * rows + r, src[sBase + c], old(dst[base..]), ws, target);
      }
      BlockRow(rows, cols, 1, rt, r, ct, cEnd);
    }
  }

  /** The two-byte branch. */
  method TransposeTile2(dst: array<byte>, base: nat, src: seq<byte>, rows: nat, cols: nat,
                     rt: nat, rEnd: nat, ct: nat, cEnd: nat)
    returns (ghost ws: seq<Write<byte>>)
    requires |src| == rows * cols * 2 == dst.Length - base
    requires rt < rEnd <= rows && ct <= cEnd <= cols
    modifies dst
    ensures dst[..base] == old(dst[..base])
    ensures Painted(old(dst[base..]), dst[base..], ws, Transposed(src, rows, cols, 2))
    ensures Indices(ws) == Block(rows, cols, 2, rt, rEnd, ct, cEnd)
  {
    hide Painted, Block, Element, Transposed;
    ws := [];
    ghost var target := Transposed(src, rows, cols, 2);
    PaintNothing(dst[base..], target);
    BlockEmpty(rows, cols, 2, rt, rt, ct, cEnd);
    for r := rt to rEnd
      invariant dst[..base] == old(dst[..base])
      invariant Painted(old(dst[base..]), dst[base..], ws, target)
      invariant Indices(ws) == Block(rows, cols, 2, rt, r, ct, cEnd)
    {
      var sBase := r * cols * 2;
      BlockEmpty(rows, cols, 2, r, r + 1, ct, ct);
      for c := ct to cEnd
        invariant dst[..base] == old(dst[..base])
        invariant Painted(old(dst[base..]), dst[base..], ws, target)
        invariant Indices(ws) == Block(rows, cols, 2, rt, r, ct, cEnd) + Block(rows, cols, 2, r, r + 1, ct, c)
      {
        BlockExtend(rows, cols, 2, r, ct, c);
        BlockDisjoint(rows, cols, 2, rt, r, ct, cEnd, c);
        ghost var mid := dst[base..];
        ghost var more := CopyWord(dst, base, src, rows, cols, r, c, sBase);
        PaintMore(old(dst[base..]), mid, dst[base..], ws, more, target);
        ws := ws + more;
      }
      BlockRow(rows, cols, 2, rt, r, ct, cEnd);
    }
  }

  /** The general branch, an element at a time. */
  method TransposeTileN(dst: array<byte>, base: nat, src: seq<byte>, rows: nat, cols: nat, es: nat,
                     rt: nat, rEnd: nat, ct: nat, cEnd: nat)
    returns (ghost ws: seq<Write<byte>>)
    requires |src| == rows * cols * es == dst.Length - base && es > 0
    requires rt < rEnd <= rows && ct <= cEnd <= cols
    modifies dst
    ensures dst[..base] == old(dst[..base])
    ensures Painted(old(dst[base..]), dst[base..], ws, Transposed(src, rows, cols, es))
    ensures Indices(ws) == Block(rows, cols, es, rt, rEnd, ct, cEnd)
  {
    hide Painted, Block, Element, Transposed;
    ws := [];
    ghost var target := Transposed(src, rows, cols, es);
    PaintNothing(dst[base..], target);
    BlockEmpty(rows, cols, es, rt, rt, ct, cEnd);
    for r := rt to rEnd
      invariant dst[..base] == old(dst[..base])
      invariant Painted(old(dst[base..]), dst[base..], ws, target)
      invariant Indices(ws) == Block(rows, cols, es, rt, r, ct, cEnd)
    {
      BlockEmpty(rows, cols, es, r, r + 1, ct, ct);
      for c := ct to cEnd
        invariant dst[..base] == old(dst[..base])
        invariant Painted(old(dst[base..]), dst[base..], ws, target)
        invariant Indices(ws) == Block(rows, cols, es, rt, r, ct, cEnd) + Block(rows, cols, es, r, r + 1, ct, c)
      {
        BlockExtend(rows, cols, es, r, ct, c);
        BlockDisjoint(rows, cols, es, rt, r, ct, cEnd, c);
        ghost var mid := dst[base..];
        ghost var more := CopyElement(dst, base, src, rows, cols, es, r, c);
        PaintMore(old(dst[base..]), mid, dst[base..], ws, more, target);
        ws := ws + more;
      }
      BlockRow(rows, cols, es, rt, r, ct, cEnd);
    }
  }

  /** The switch on the element size. */
  method TransposeTile(dst: array<byte>, base: nat, src: seq<byte>, rows: nat, cols: nat, es: nat,
                       rt: nat, rEnd: nat, ct: nat, cEnd: nat)
    returns (ghost ws: seq<Write<byte>>)
    requires |src| == rows * cols * es == dst.Length - base && es > 0
    requires rt < rEnd <= rows && ct <= cEnd <= cols
    modifies dst
    ensures dst[..base] == old(dst[..base])
    ensures Painted(old(dst[base..]), dst[base..], ws, Transposed(src, rows, cols, es))
    ensures Indices(ws) == Block(rows, cols, es, rt, rEnd, ct, cEnd)
  {
    if es == 1 {
      ws := TransposeTile1(dst, base, src, rows, cols, rt, rEnd, ct, cEnd);
    } else if es == 2 {
      ws := TransposeTile2(dst, base, src, rows, cols, rt, rEnd, ct, cEnd);
    } else {
      ws := TransposeTileN(dst, base, src, rows, cols, es, rt, rEnd, ct, cEnd);
    }
  }

  /** Source rows [r0, r1), a tile at a time. */
  method TransposeBand(dst: array<byte>, base: nat, src: seq<byte>, rows: nat, cols: nat, es: nat, r0: nat, r1: nat)
    returns (ghost ws: seq<Write<byte>>)
    requires |src| == rows * cols * es == dst.Length - base && es > 0
    requires r0 <= r1 <= rows
    modifies dst
    ensures dst[..base] == old(dst[..base])
    ensures Painted(old(dst[base..]), dst[base..], ws, Transposed(src, rows, cols, es))
    ensures Indices(ws) == Block(rows, cols, es, r0, r1, 0, cols)
  {
    ws := [];
    ghost var target := Transposed(src, rows, cols, es);
    var rt := r0;
    while rt < r1
      invariant r0 <= rt
      invariant dst[..base] == old(dst[..base])
      invariant Painted(old(dst[base..]), dst[base..], ws, target)
      invariant Indices(ws) == Block(rows, cols, es, r0, Min(rt, r1), 0, cols)
    {
      var rEnd := Min(rt + TRANSPOSE_TILE, r1);
      var ct := 0;
      while ct < cols
        invariant dst[..base] == old(dst[..base])
        invariant Painted(old(dst[base..]), dst[base..], ws, target)
        invariant Indices(ws)
                  == Block(rows, cols, es, r0, rt, 0, cols) + Block(rows, cols, es, rt, rEnd, 0, Min(ct, cols))
      {
        var cEnd := Min(ct + TRANSPOSE_TILE, cols);
        ghost var mid := dst[base..];
        ghost var more := TransposeTile(dst, base, src, rows, cols, es, rt, rEnd, ct, cEnd);
        PaintMore(old(dst[base..]), mid, dst[base..], ws, more, target);
        ws := ws + more;
        ct := ct + TRANSPOSE_TILE;
      }
      rt := rt + TRANSPOSE_TILE;
    }
  }

  function Min(a: int, b: int): int {
    if a < b then a else b
  }

  /** The fan-out of transposeInto, one goroutine per band of rows. */
  method TransposeBands(dst: array<byte>, base: nat, src: seq<byte>, rows: nat, cols: nat, es: nat, band: nat)
    returns (ghost traces: seq<seq<Write<byte>>>)
    requires |src| == rows * cols * es == dst.Length - base && es > 0 && band > 0
    modifies dst
    ensures dst[..base] == old(dst[..base])
    ensures dst[base..] == Transposed(src, rows, cols, es)
    ensures RaceFree(old(dst[base..]), dst[base..], traces, Transposed(src, rows, cols, es))
    ensures forall k: nat | k < |src| :: Owned(traces, k)
  {
    ghost var target := Transposed(src, rows, cols, es);
    traces := [];
    ghost var ws := [];
    var r0 := 0;
    while r0 < rows
      invariant dst[..base] == old(dst[..base])
      invariant Painted(old(dst[base..]), dst[base..], ws, target)
      invariant Indices(ws) == Block(rows, cols, es, 0, Min(r0, rows), 0, cols)
      invariant Joined(traces, ws, target)
    {
      var r1 := r0 + band;
      if r1 > rows {
        r1 := rows;
      }
      ghost var mid := dst[base..];
      ghost var more := TransposeBand(dst, base, src, rows, cols, es, r0, r1);
      JoinMore(traces, ws, more, target);
      PaintMore(old(dst[base..]), mid, dst[base..], ws, more, target);
      ws, traces := ws + more, traces + [more];
      r0 := r0 + band;
    }
    WholeBlock(rows, cols, es);
    JoinedRaceFree(old(dst[base..]), dst[base..], traces, ws, target);
  }

  /**
   * transposeInto. `traces` has the writes of each goroutine; dst holds what running them one after the other
   * leaves, and RaceFreeSchedule says that any other schedule leaves the same.
   */
  method TransposeInto(dst: array<byte>, base: nat, src: seq<byte>, rows: nat, cols: nat, es: nat, gomaxprocs: nat)
    returns (ghost traces: seq<seq<Write<byte>>>)
    requires |src| == rows * cols * es == dst.Length - base && es > 0
    modifies dst
    ensures dst[..base] == old(dst[..base])
    ensures dst[base..] == Transposed(src, rows, cols, es)
    ensures RaceFree(old(dst[base..]), dst[base..], traces, Transposed(src, rows, cols, es))
    ensures forall k: nat | k < |src| :: Owned(traces, k)
  {
    if rows * cols >= PARALLEL_MIN_ELEMS {
      var workers := Min(gomaxprocs, rows);
      if workers > 1 {
        var band := (rows + workers - 1) / workers;
        traces := TransposeBands(dst, base, src, rows, cols, es, band);
        return;
      }
    }
    ghost var target := Transposed(src, rows, cols, es);
    ghost var ws := TransposeBand(dst, base, src, rows, cols, es, 0, rows);
    traces := [] + [ws];
    JoinMore([], [], ws, target);
    assert [] + ws == ws;
    WholeBlock(rows, cols, es);
    JoinedRaceFree(old(dst[base..]), dst[base..], traces, ws, target);
  }

  /** The tiles of all rows and all columns cover every destination byte. */
  lemma WholeBlock(rows: nat, cols: nat, es: nat)
    ensures forall k: nat | k < rows * cols * es :: k in Block(rows, cols, es, 0, rows, 0, cols)
  {
    assert rows * cols * es == cols * rows * es;
    forall k: nat | k < rows * cols * es
      ensures k in Block(rows, cols, es, 0, rows, 0, cols)
    {
      OffsetSplit(k, cols, rows, es);
    }
  }
}
