/**
 * The streaming transposers of client/imagestream_test.go: wire bytes arrive in chunks that may split a sample,
 * and end up as one row-major array of 16-bit samples.
 */
module Sinks {
  import opened Bytes
  import opened Grid
  import opened Writes
  import opened ImageBytes

  // ---- what a sink must hold, as a function of the bytes received ----

  /** Where the sample at wire index i belongs in a w x h row-major array: column i / h, row i % h. */
  function PixelOf(i: nat, w: nat, h: nat): nat
    requires h > 0
  {
    Mix(i % h, i / h, w)
  }

  /** The wire index of the sample for pixel k. */
  function WireOf(k: nat, w: nat, h: nat): nat
    requires w > 0
  {
    Mix(k % w, k / w, h)
  }

  /** The first n samples have places in the array; those beyond w * h fall into its first column, a row lower. */
  predicate InBounds(n: nat, w: nat, h: nat) {
    n == 0 || (w > 0 && n < w * h + h)
  }

  /** Of the first n samples the last one with its place at pixel k, or the first one due there. */
  function LastAt(k: nat, n: nat, w: nat, h: nat): nat
    requires w > 0
  {
    if k >= w && k % w == 0 && w * h + k / w - 1 < n then w * h + k / w - 1 else WireOf(k, w, h)
  }

  /** The array after the bytes r: every whole sample in its place, zero where none has arrived. */
  function Image(r: seq<byte>, w: nat, h: nat): (pix: seq<word16>)
    ensures |pix| == w * h
  {
    seq(w * h, k requires 0 <= k < w * h =>
      PositiveWidth(k, w, h);
      var i := LastAt(k, |r| / 2, w, h);
      if 2 * i + 2 <= |r| then Le16(r, 2 * i) else 0)
  }

  /** The sink finds a place for wire sample i inside its array. */
  predicate HasPlace(i: nat, w: nat, h: nat) {
    h > 0 && PixelOf(i, w, h) < w * h
  }

  /** It does for all of n samples if and only if there are none, or fewer than a column too many. */
  lemma InBoundsExactly(n: nat, w: nat, h: nat)
    ensures InBounds(n, w, h) <==> forall i: nat | i < n :: HasPlace(i, w, h)
  {
    if InBounds(n, w, h) {
      forall i: nat | i < n
        ensures HasPlace(i, w, h)
      {
        if i < w * h {
          PixelWire(i, w, h);
        } else {
          PixelBeyond(i - w * h, w, h);
        }
      }
    } else if w == 0 || h == 0 {
      assert w * h == 0 && !HasPlace(0, w, h);
    } else {
      PixelBeyond(h - 1, w, h);
      assert !HasPlace(w * h + h - 1, w, h);
    }
  }

  /** And no two samples share a pixel if and only if there are no more than pixels. */
  lemma OwnPixelsExactly(n: nat, w: nat, h: nat)
    requires InBounds(n, w, h)
    ensures n <= w * h <==>
            forall i: nat, j: nat | i < j < n :: h > 0 && PixelOf(i, w, h) != PixelOf(j, w, h)
  {
    if n <= w * h {
      forall i: nat, j: nat | i < j < n
        ensures h > 0 && PixelOf(i, w, h) != PixelOf(j, w, h)
      {
        PixelWire(i, w, h);
        PixelWire(j, w, h);
      }
    } else {
      PixelBeyond(0, w, h);
      SecondRow(w, h);
      assert PixelOf(1, w, h) == PixelOf(w * h, w, h);
    }
  }

  lemma SecondRow(w: nat, h: nat)
    requires w > 0 && w * h < w * h + h - 1
    ensures h > 1 && PixelOf(1, w, h) == w && 1 < w * h
  {
    MixInverse(0, 1, h);
    MulMonotone(1, w, h);
  }

  /** The samples beyond the last column go to the first one. */
  lemma PixelBeyond(y: nat, w: nat, h: nat)
    requires y < h
    ensures PixelOf(w * h + y, w, h) == (y + 1) * w
    ensures w > 0 ==> ((y + 1) * w < w * h <==> y + 1 < h)
  {
    MixInverse(w, y, h);
    if y + 1 < h {
      MulMonotone(y + 2, h, w);
    }
  }

  lemma PositiveWidth(k: nat, w: nat, h: nat)
    requires k < w * h
    ensures w > 0 && h > 0
  {
  }

  lemma PixelWire(i: nat, w: nat, h: nat)
    requires i < w * h
    ensures w > 0 && h > 0 && PixelOf(i, w, h) < w * h && WireOf(PixelOf(i, w, h), w, h) == i
  {
    MixSplit(i, w, h);
    assert w > 0 by { PositiveWidth(i, w, h); }
    MixBound(i % h, i / h, h, w);
    MixInverse(i % h, i / h, w);
  }

  lemma WirePixel(k: nat, w: nat, h: nat)
    requires k < w * h
    ensures w > 0 && h > 0 && WireOf(k, w, h) < w * h && PixelOf(WireOf(k, w, h), w, h) == k
  {
    assert w * h == h * w;
    MixSplit(k, h, w);
    PositiveWidth(k, w, h);
    MixBound(k % w, k / w, w, h);
    MixInverse(k % w, k / w, h);
  }

  /** A pixel of the array, told by its wire index. */
  lemma ImageAt(r: seq<byte>, w: nat, h: nat, i: nat)
    requires i < w * h && |r| / 2 <= w * h
    ensures h > 0 && PixelOf(i, w, h) < w * h
    ensures Image(r, w, h)[PixelOf(i, w, h)] == if 2 * i + 2 <= |r| then Le16(r, 2 * i) else 0
  {
    PixelWire(i, w, h);
  }

  /** The pixels of wire samples [lo, hi). */
  ghost function Cells(lo: nat, hi: nat, w: nat, h: nat): set<nat>
    requires h > 0
  {
    set i: nat | lo <= i < hi :: PixelOf(i, w, h)
  }

  /** While no two samples share a pixel, each pixel has the one sample due there. */
  lemma ImagePixel(r: seq<byte>, w: nat, h: nat, k: nat)
    requires k < w * h && |r| / 2 <= w * h
    ensures w > 0 && Image(r, w, h)[k] == var i := WireOf(k, w, h); if 2 * i + 2 <= |r| then Le16(r, 2 * i) else 0
  {
    WirePixel(k, w, h);
  }

  /** More bytes change exactly the pixels of the samples they complete. */
  lemma ImageMore(r: seq<byte>, s: seq<byte>, w: nat, h: nat)
    requires (|r| + |s|) / 2 <= w * h && h > 0
    ensures forall k: nat | k < w * h && k !in Cells(|r| / 2, |r + s| / 2, w, h) ::
              Image(r + s, w, h)[k] == Image(r, w, h)[k]
  {
    forall k: nat | k < w * h && k !in Cells(|r| / 2, |r + s| / 2, w, h)
      ensures Image(r + s, w, h)[k] == Image(r, w, h)[k]
    {
      WirePixel(k, w, h);
      ImagePixel(r, w, h, k);
      ImagePixel(r + s, w, h, k);
      hide Image, PixelOf, WireOf;
      var i := WireOf(k, w, h);
      assert !(|r| / 2 <= i < |r + s| / 2);
      assert 2 * i + 2 <= |r| ==> Le16(r + s, 2 * i) == Le16(r, 2 * i);
    }
  }

  /** A single byte of a sample not yet complete changes nothing. */
  lemma ImageHalf(r: seq<byte>, b: byte, w: nat, h: nat)
    requires |r| % 2 == 0
    ensures Image(r + [b], w, h) == Image(r, w, h)
  {
    forall k: nat | k < w * h
      ensures Image(r + [b], w, h)[k] == Image(r, w, h)[k]
    {
      PositiveWidth(k, w, h);
      var i := LastAt(k, |r| / 2, w, h);
      assert 2 * i + 2 <= |r| ==> Le16(r + [b], 2 * i) == Le16(r, 2 * i);
    }
  }

  /** The next sample, at column x and row y. */
  lemma ImageNext(r: seq<byte>, s: seq<byte>, w: nat, h: nat, x: nat, y: nat)
    requires |r| % 2 == 0 && |s| == 2 && y < h
    requires |r| / 2 == Mix(x, y, h) && InBounds(|r| / 2 + 1, w, h)
    ensures Mix(y, x, w) < w * h
    ensures Image(r + s, w, h) == Image(r, w, h)[Mix(y, x, w) := Le16(s, 0)]
  {
    if |r| / 2 < w * h {
      ImageNextInside(r, s, w, h, x, y);
    } else {
      ImageNextBeyond(r, s, w, h, x, y);
    }
  }

  /** A sample too many takes the place of one in the first column. */
  lemma ImageNextBeyond(r: seq<byte>, s: seq<byte>, w: nat, h: nat, x: nat, y: nat)
    requires |r| % 2 == 0 && |s| == 2 && y < h
    requires |r| / 2 == Mix(x, y, h) && InBounds(|r| / 2 + 1, w, h) && |r| / 2 >= w * h
    ensures Mix(y, x, w) < w * h
    ensures Image(r + s, w, h) == Image(r, w, h)[Mix(y, x, w) := Le16(s, 0)]
  {
    var i := |r| / 2;
    var y' := i - w * h;
    MixInverse(x, y, h);
    MixInverse(w, y', h);
    PixelBeyond(y', w, h);
    forall k: nat | k < w * h
      ensures Image(r + s, w, h)[k] == if k == Mix(y, x, w) then Le16(s, 0) else Image(r, w, h)[k]
    {
      var j := LastAt(k, i + 1, w, h);
      LastBeyond(k, y', w, h);
      assert j != i ==> 2 * j + 2 <= |r| + 2 ==> 2 * j + 2 <= |r|;
      assert 2 * j + 2 <= |r| ==> Le16(r + s, 2 * j) == Le16(r, 2 * j);
      assert Le16(r + s, 2 * i) == Le16(s, 0);
    }
  }

  lemma LastBeyond(k: nat, y: nat, w: nat, h: nat)
    requires w > 0 && k < w * h && y + 1 < h
    ensures var n := w * h + y;
            LastAt(k, n + 1, w, h) == if k == (y + 1) * w then n else LastAt(k, n, w, h)
    ensures k != (y + 1) * w ==> LastAt(k, w * h + y, w, h) != w * h + y
  {
    MixInverse(y + 1, 0, w);
    WirePixel(k, w, h);
    if k % w == 0 {
      assert k == k / w * w;
    }
  }

  lemma ImageNextInside(r: seq<byte>, s: seq<byte>, w: nat, h: nat, x: nat, y: nat)
    requires |r| % 2 == 0 && |s| == 2 && y < h
    requires |r| / 2 == Mix(x, y, h) && |r| / 2 < w * h
    ensures Mix(y, x, w) < w * h
    ensures Image(r + s, w, h) == Image(r, w, h)[Mix(y, x, w) := Le16(s, 0)]
  {
    var i := |r| / 2;
    MixInverse(x, y, h);
    MixSplit(i, w, h);
    ImageAt(r + s, w, h, i);
    ImageMore(r, s, w, h);
    assert Cells(i, i + 1, w, h) == {Mix(y, x, w)};
    assert Le16(r + s, 2 * i) == Le16(s, 0);
    assert Image(r + s, w, h)[Mix(y, x, w)] == Le16(s, 0);
  }

  // ---- the sinks ----

  /**
   * u16Sink, with the Write of parSink beside its own: parSink is a u16Sink that only delivers in another way.
   * `received` is every byte written since Header.
   */
  class U16Sink {
    var w: nat
    var h: nat
    var es: nat
    var pix: array<word16>
    var carry: array<byte>
    var held: nat
    var x: nat
    var y: nat
    ghost var received: seq<byte>

    /** A zero sink. */
    constructor ()
      ensures held == 0 && x == 0 && y == 0 && carry.Length == 8
      ensures fresh(carry) && fresh(pix)
    {
      w, h, es, held, x, y := 0, 0, 0, 0, 0, 0;
      pix := new word16[0];
      carry := new byte[8];
      received := [];
    }

    /** The sink is ready for bytes, and its state is the one `received` determines. */
    ghost predicate Valid()
      reads this, pix, carry
    {
      && es == 2
      && carry.Length == 8
      && InBounds(|received| / 2, w, h)
      && |received| / 2 == Mix(x, y, h)
      && (y < h || (h == 0 && y == 0))
      && held == |received| % 2
      && (held == 1 ==> carry[0] == received[|received| - 1])
      && pix[..] == Image(received, w, h)
    }

    method Header(m: ImageBytesHeader) returns (ok: bool)
      requires held == 0 && x == 0 && y == 0 && carry.Length == 8
      requires m.width >= 0 && m.height >= 0
      modifies this
      ensures ok <==> ElementSize(m.Transmit()) == 2
      ensures ok ==> Valid() && received == [] && w == m.width && h == m.height && fresh(pix) && carry == old(carry)
    {
      w, h := m.width, m.height;
      es := ElementSize(m.Transmit());
      if es != 2 {
        return false;
      }
      pix := new word16[w * h](_ => 0);
      received := [];
      return true;
    }

    /** put: one whole sample, completed by b, the last byte received. */
    method Put(v: word16, ghost b: byte)
      requires es == 2 && |received| % 2 == 1 && |received| / 2 == Mix(x, y, h)
      requires InBounds((|received| + 1) / 2, w, h) && y < h
      requires v == Le16([received[|received| - 1], b], 0)
      requires pix[..] == Image(received, w, h)
      modifies this`x, this`y, this`received, pix
      ensures received == old(received) + [b]
      ensures |received| / 2 == Mix(x, y, h) && y < h
      ensures pix[..] == Image(received, w, h)
    {
      ghost var n := |received| - 1;
      ghost var r := received[..n];
      assert received == r + [received[n]];
      ImageHalf(r, received[n], w, h);
      ImageNext(r, [received[n], b], w, h, x, y);
      assert received + [b] == r + [received[n], b];
      pix[y * w + x] := v;
      received := received + [b];
      NextCell(x, y, h);
      y := y + 1;
      if y == h {
        y, x := 0, x + 1;
      }
    }

    /** The first part of both Writes: finish the sample the last Write left half done. */
    method FinishCarry(p: seq<byte>) returns (rest: seq<byte>, done: bool)
      requires Valid() && InBounds((|received| + |p|) / 2, w, h)
      modifies this`x, this`y, this`held, this`received, pix, carry
      ensures Valid()
      ensures received + rest == old(received) + p
      ensures done ==> rest == []
      ensures !done ==> held == 0
    {
      rest := p;
      if held > 0 {
        var take := es - held;
        if take > |p| {
          take := |p|;
        }
        Copy(carry, held, p[..take]);
        held := held + take;
        rest := p[take..];
        assert p == p[..take] + rest;
        if held < es {
          return rest, true;
        }
        Room(|received|, (|received| + |p|) / 2, w, h, x, y);
        Put(Le16(carry[..], 0), p[0]);
        held := 0;
        assert old(received) + [p[0]] + rest == old(received) + p;
      }
      done := false;
    }

    /** u16Sink.Write: whole columns at a time. */
    method Write(bytes: seq<byte>)
      requires Valid() && InBounds((|received| + |bytes|) / 2, w, h)
      modifies this`x, this`y, this`held, this`received, pix, carry
      ensures Valid() && received == old(received) + bytes
    {
      hide Image, Mix, InBounds;
      ghost var total := (|received| + |bytes|) / 2;
      var p, done := FinishCarry(bytes);
      if done {
        return;
      }
      while |p| / es > 0
        invariant Valid() && held == 0 && w == old(w) && h == old(h)
        invariant received + p == old(received) + bytes && (|received| + |p|) / 2 == total
        decreases |p|
      {
        Room(|received|, total, w, h, x, y);
        var run := h - y;
        if run > |p| / es {
          run := |p| / es;
        }
        ghost var r := received;
        ColumnRun(p, run);
        assert r + p[..run * es] + p[run * es..] == r + p;
        p := p[run * es..];
      }
      Keep(p);
    }

    /** The last part of both Writes: hold on to the odd byte. */
    method Keep(p: seq<byte>)
      requires Valid() && held == 0 && |p| < es
      modifies this`held, this`received, carry
      ensures Valid() && received == old(received) + p
    {
      if |p| > 0 {
        Copy(carry, 0, p);
        ImageHalf(received, p[0], w, h);
        assert p == [p[0]];
        held := |p|;
        received := received + p;
      } else {
        assert received + p == received;
      }
    }

    /** The samples p[0], p[1], ... of one column, from row y down. */
    method ColumnRun(p: seq<byte>, run: nat)
      requires Valid() && held == 0
      requires 0 < run <= h - y && run * es <= |p| && InBounds((|received| + |p|) / 2, w, h)
      modifies this`x, this`y, this`received, pix
      ensures Valid() && received == old(received) + p[..run * es]
    {
      hide Image, Mix;
      FillRun(p, run);
      NextCells(x, y, h, run);
      assert run * es == 2 * run;
      HalfMore(|received|, run);
      received := received + p[..2 * run];
      y := y + run;
      if y == h {
        y, x := 0, x + 1;
      }
    }

    /** The inner loop of the column run: sequential reads, writes a row apart. */
    method FillRun(p: seq<byte>, run: nat)
      requires Valid() && held == 0
      requires run <= h - y && run * es <= |p| && InBounds((|received| + |p|) / 2, w, h)
      modifies pix
      ensures pix[..] == Image(received + p[..run * es], w, h)
    {
      var base := y * w + x;
      assert received + p[..0] == received;
      for i := 0 to run
        invariant pix[..] == Image(received + p[..2 * i], w, h)
      {
        RunStep(received, p, i, w, h, x, y);
        pix[base + i * w] := Le16(p, i * es);
      }
    }

    // ---- parSink ----

    /** What convertRange may rely on while other goroutines are writing pix: the position, not the pixels. */
    ghost predicate Placed(p: seq<byte>)
      reads this
    {
      && es == 2 && pix.Length == w * h && y < h
      && |received| % 2 == 0 && |received| / 2 == Mix(x, y, h)
      && |p| % 2 == 0 && (|received| + |p|) / 2 <= w * h
    }

    /** parSink.Write, as long as no two samples share a pixel, for which its goroutines would race. */
    method ParWrite(bytes: seq<byte>, gomaxprocs: nat)
      requires Valid() && (|received| + |bytes|) / 2 <= w * h
      modifies this`x, this`y, this`held, this`received, pix, carry
      ensures Valid() && received == old(received) + bytes
    {
      hide Image, Mix, InBounds;
      Enough((|received| + |bytes|) / 2, w, h);
      var p, done := FinishCarry(bytes);
      if done {
        return;
      }
      var full := |p| / es * es;
      EvenPart(|p|);
      if full > 0 {
        Room(|received|, (|received| + |p|) / 2, w, h, x, y);
        ghost var r := received;
        ghost var traces := ConvertParallel(p[..full], gomaxprocs);
        assert r + p[..full] + p[full..] == r + p;
        p := p[full..];
      }
      Keep(p);
    }

    /** convertParallel: one goroutine per band of samples, and any schedule of them leaves the same array. */
    method ConvertParallel(p: seq<byte>, gomaxprocs: nat) returns (ghost traces: seq<seq<Write<word16>>>)
      requires Valid() && Placed(p)
      modifies this`x, this`y, this`received, pix
      ensures Valid() && received == old(received) + p
      ensures RaceFree(old(pix[..]), pix[..], traces, Image(received, w, h))
    {
      var elems := |p| / es;
      var workers := gomaxprocs;
      if workers > elems / 8192 {
        workers := elems / 8192;
      }
      var band := elems;
      if workers >= 2 {
        band := (elems + workers - 1) / workers;
      }
      traces := ConvertBands(p, band);
      Advance(elems, p);
    }

    method ConvertBands(p: seq<byte>, band: nat) returns (ghost traces: seq<seq<Write<word16>>>)
      requires Valid() && Placed(p) && (band > 0 || p == [])
      modifies pix
      ensures pix[..] == Image(received + p, w, h)
      ensures RaceFree(old(pix[..]), pix[..], traces, Image(received + p, w, h))
    {
      hide Image, InBounds, Mix, Banded, Painted;
      ghost var target, n := Image(received + p, w, h), |received| / 2;
      var elems := |p| / es;
      traces := [];
      ghost var ws := [];
      BandsStart(pix[..], target, n, w, h);
      var lo := 0;
      while lo < elems
        invariant Banded(old(pix[..]), pix[..], traces, ws, target, n, n + Min(lo, elems), w, h)
      {
        var hi := Min(lo + band, elems);
        ghost var mid := pix[..];
        ghost var more := ConvertRange(p, lo, hi);
        BandMore(old(pix[..]), mid, pix[..], traces, ws, more, target, n, n + lo, n + hi, w, h);
        ws, traces := ws + more, traces + [more];
        lo := lo + band;
      }
      BandsEnd(pix[..], traces, ws, received, p, w, h);
    }

    /** Samples [lo, hi) of the chunk, each placed from the sink's position and its own index alone. */
    method ConvertRange(p: seq<byte>, lo: nat, hi: nat) returns (ghost ws: seq<Write<word16>>)
      requires Placed(p) && lo <= hi <= |p| / 2
      modifies pix
      ensures Painted(old(pix[..]), pix[..], ws, Image(received + p, w, h))
      ensures Indices(ws) == Cells(|received| / 2 + lo, |received| / 2 + hi, w, h)
    {
      hide Image, PixelOf, InBounds, Cells, Painted, Mix;
      ghost var target, n := Image(received + p, w, h), |received| / 2;
      NoCells(n + lo, w, h);
      PaintNothing(pix[..], target);
      var start := y + lo;
      var x': nat, y': nat := x + start / h, start % h;
      SplitPosition(x, y, lo, h);
      ws := [];
      var i := lo;
      while i < hi
        invariant lo <= i <= hi && y' < h && Mix(x', y', h) == n + i
        invariant Painted(old(pix[..]), pix[..], ws, target)
        invariant Indices(ws) == Cells(n + lo, n + i, w, h)
      {
        var run := Min(h - y', hi - i);
        ws := RangeRun(p, lo, i, run, x', y', old(pix[..]), ws);
        NextCells(x', y', h, run);
        i := i + run;
        y' := y' + run;
        if y' == h {
          y', x' := 0, x' + 1;
        }
      }
    }

    /** The inner loop of convertRange: one column run. */
    method RangeRun(p: seq<byte>, ghost lo: nat, i: nat, run: nat, x': nat, y': nat,
                    ghost before: seq<word16>, ghost ws0: seq<Write<word16>>)
      returns (ghost ws: seq<Write<word16>>)
      requires Placed(p) && lo <= i && i + run <= |p| / 2 && y' + run <= h
      requires Mix(x', y', h) == |received| / 2 + i
      requires Painted(before, pix[..], ws0, Image(received + p, w, h))
      requires Indices(ws0) == Cells(|received| / 2 + lo, |received| / 2 + i, w, h)
      modifies pix
      ensures Painted(before, pix[..], ws, Image(received + p, w, h))
      ensures Indices(ws) == Cells(|received| / 2 + lo, |received| / 2 + i + run, w, h)
    {
      var base := y' * w + x';
      ghost var target, n := Image(received + p, w, h), |received| / 2;
      ws := ws0;
      for k := 0 to run
        invariant Painted(before, pix[..], ws, target)
        invariant Indices(ws) == Cells(n + lo, n + i + k, w, h)
      {
        ChunkSample(received, p, i + k, w, h, x', y', k);
        NewCell(n + lo, n + i + k, w, h);
        assert pix[0..] == pix[..];
        ws := Store(pix, 0, base + k * w, Le16(p, (i + k) * es), before, ws, target);
        assert pix[0..] == pix[..];
      }
    }

    method Advance(elems: nat, ghost p: seq<byte>)
      requires Placed(p) && elems == |p| / 2 && held == 0
      requires pix[..] == Image(received + p, w, h) && carry.Length == 8
      modifies this`x, this`y, this`received
      ensures Valid() && received == old(received) + p
    {
      hide Image, Mix, InBounds;
      Enough((|received| + |p|) / 2, w, h);
      var total := y + elems;
      SplitPosition(x, y, elems, h);
      x := x + total / h;
      y := total % h;
      received := received + p;
    }
  }

  function Min(a: int, b: int): int {
    if a < b then a else b
  }

  lemma HalfMore(n: nat, run: nat)
    requires n % 2 == 0
    ensures (n + 2 * run) % 2 == 0 && (n + 2 * run) / 2 == n / 2 + run
  {
  }

  lemma SplitPosition(x: nat, y: nat, n: nat, h: nat)
    requires h > 0
    ensures Mix(x + (y + n) / h, (y + n) % h, h) == Mix(x, y, h) + n
  {
    var q, m := (y + n) / h, (y + n) % h;
    assert (x + q) * h == x * h + q * h;
  }

  lemma PixelsDiffer(i: nat, j: nat, w: nat, h: nat)
    requires i < w * h && j < w * h && i != j && h > 0
    ensures PixelOf(i, w, h) != PixelOf(j, w, h)
  {
    PixelWire(i, w, h);
    PixelWire(j, w, h);
  }

  /** The traces so far are those of the samples n .. m, in pixels of their own. */
  ghost predicate Banded(before: seq<word16>, now: seq<word16>, traces: seq<seq<Write<word16>>>,
                         ws: seq<Write<word16>>, target: seq<word16>, n: nat, m: nat, w: nat, h: nat)
    requires h > 0
  {
    Painted(before, now, ws, target) && Indices(ws) == Cells(n, m, w, h) && Joined(traces, ws, target)
  }

  lemma BandsStart(before: seq<word16>, target: seq<word16>, n: nat, w: nat, h: nat)
    requires h > 0 && |before| == |target|
    ensures Banded(before, before, [], [], target, n, n, w, h)
  {
    PaintNothing(before, target);
    NoCells(n, w, h);
  }

  lemma BandMore(before: seq<word16>, mid: seq<word16>, now: seq<word16>, traces: seq<seq<Write<word16>>>,
                 ws: seq<Write<word16>>, more: seq<Write<word16>>, target: seq<word16>, n: nat, a: nat, b: nat,
                 w: nat, h: nat)
    requires h > 0 && n <= a <= b <= w * h
    requires Banded(before, mid, traces, ws, target, n, a, w, h)
    requires Painted(mid, now, more, target) && Indices(more) == Cells(a, b, w, h)
    ensures Banded(before, now, traces + [more], ws + more, target, n, b, w, h)
  {
    CellsDisjoint(n, a, b, w, h);
    hide Cells;
    JoinMore(traces, ws, more, target);
    PaintMore(before, mid, now, ws, more, target);
  }

  lemma BandsEnd(now: seq<word16>, traces: seq<seq<Write<word16>>>, ws: seq<Write<word16>>,
                 r: seq<byte>, p: seq<byte>, w: nat, h: nat)
    requires h > 0 && (|r| + |p|) / 2 <= w * h
    requires Banded(Image(r, w, h), now, traces, ws, Image(r + p, w, h), |r| / 2, |r + p| / 2, w, h)
    ensures now == Image(r + p, w, h) && RaceFree(Image(r, w, h), now, traces, Image(r + p, w, h))
  {
    var before, target := Image(r, w, h), Image(r + p, w, h);
    JoinedRaceFree(before, now, traces, ws, target);
    ApplyFaithful(before, ws, target);
    ImageMore(r, p, w, h);
    hide Image, Cells;
    assert forall k | 0 <= k < w * h :: now[k] == target[k];
  }

  lemma NoCells(n: nat, w: nat, h: nat)
    requires h > 0
    ensures Cells(n, n, w, h) == {}
  {
  }

  lemma NewCell(lo: nat, i: nat, w: nat, h: nat)
    requires lo <= i < w * h && h > 0
    ensures Cells(lo, i + 1, w, h) == Cells(lo, i, w, h) + {PixelOf(i, w, h)}
    ensures PixelOf(i, w, h) !in Cells(lo, i, w, h)
  {
    forall j: nat | lo <= j < i
      ensures PixelOf(j, w, h) != PixelOf(i, w, h)
    {
      PixelsDiffer(j, i, w, h);
    }
  }

  lemma CellsDisjoint(a: nat, b: nat, c: nat, w: nat, h: nat)
    requires a <= b <= c <= w * h && h > 0
    ensures Cells(a, b, w, h) !! Cells(b, c, w, h)
    ensures Cells(a, b, w, h) + Cells(b, c, w, h) == Cells(a, c, w, h)
  {
    forall i: nat, j: nat | a <= i < b <= j < c
      ensures PixelOf(i, w, h) != PixelOf(j, w, h)
    {
      PixelsDiffer(i, j, w, h);
    }
  }

  /** Sample m of a chunk p that follows the bytes r, in row y + k of column x. */
  lemma ChunkSample(r: seq<byte>, p: seq<byte>, m: nat, w: nat, h: nat, x: nat, y: nat, k: nat)
    requires |r| % 2 == 0 && (|r| + |p|) / 2 <= w * h && 2 * m + 2 <= |p|
    requires y + k < h && m >= k && Mix(x, y, h) == |r| / 2 + m - k
    ensures |r| / 2 + m < w * h
    ensures y * w + x + k * w == PixelOf(|r| / 2 + m, w, h) < w * h
    ensures Image(r + p, w, h)[y * w + x + k * w] == Le16(p, 2 * m)
  {
    var n := |r| / 2 + m;
    NextCells(x, y, h, k);
    NextRow(y, x, w, k);
    MixInverse(x, y + k, h);
    ImageAt(r + p, w, h, n);
  }

  lemma NextCell(x: nat, y: nat, h: nat)
    ensures Mix(x, y, h) + 1 == Mix(x, y + 1, h) && Mix(x, h, h) == Mix(x + 1, 0, h)
  {
  }

  lemma NextCells(x: nat, y: nat, h: nat, n: nat)
    ensures Mix(x, y, h) + n == Mix(x, y + n, h) && Mix(x, h, h) == Mix(x + 1, 0, h)
  {
  }

  /** Sample i of a column run. */
  lemma RunStep(r: seq<byte>, p: seq<byte>, i: nat, w: nat, h: nat, x: nat, y: nat)
    requires |r| % 2 == 0 && |r| / 2 == Mix(x, y, h) && y + i < h
    requires 2 * i + 2 <= |p| && InBounds((|r| + |p|) / 2, w, h)
    ensures y * w + x + i * w < w * h
    ensures Image(r + p[..2 * (i + 1)], w, h) == Image(r + p[..2 * i], w, h)[y * w + x + i * w := Le16(p, 2 * i)]
  {
    var r', s := r + p[..2 * i], p[2 * i..2 * i + 2];
    NextRow(y, x, w, i);
    NextCells(x, y, h, i);
    ImageNext(r', s, w, h, x, y + i);
    assert r' + s == r + p[..2 * (i + 1)];
    assert Le16(s, 0) == Le16(p, 2 * i);
  }

  lemma NextRow(y: nat, x: nat, w: nat, i: nat)
    ensures y * w + x + i * w == Mix(y + i, x, w)
  {
  }

  /** While samples are still due there is a row for the next one. */
  lemma Room(n: nat, total: nat, w: nat, h: nat, x: nat, y: nat)
    requires InBounds(total, w, h) && n / 2 < total && (y < h || (h == 0 && y == 0))
    ensures y < h && InBounds(n / 2 + 1, w, h)
  {
  }

  lemma Enough(n: nat, w: nat, h: nat)
    requires n <= w * h
    ensures InBounds(n, w, h)
  {
    if n > 0 {
      PositiveWidth(0, w, h);
    }
  }

  lemma EvenPart(n: nat)
    ensures n / 2 * 2 <= n < n / 2 * 2 + 2 && n / 2 * 2 % 2 == 0
  {
  }

  // ---- the streamed and the buffered path agree ----

  /** widen: row-major bytes as 16-bit samples. */
  function Widened(pixels: seq<byte>): seq<word16> {
    seq(|pixels| / 2, k requires 0 <= k < |pixels| / 2 => Le16(pixels, 2 * k))
  }

  /** All the wire bytes of a frame, received in order, make the array its transpose back widens to. */
  lemma ImageOfWire(wire: seq<byte>, w: nat, h: nat)
    requires |wire| == w * h * 2
    ensures Image(wire, w, h) == Widened(Transposed(wire, w, h, 2))
  {
    forall k: nat | k < w * h
      ensures Image(wire, w, h)[k] == Widened(Transposed(wire, w, h, 2))[k]
    {
      PixelOfWire(wire, w, h, k);
    }
  }

  lemma PixelOfWire(wire: seq<byte>, w: nat, h: nat, k: nat)
    requires |wire| == w * h * 2 && k < w * h
    ensures Image(wire, w, h)[k] == Le16(Transposed(wire, w, h, 2), 2 * k)
  {
    hide Mix, Offset, Transposed;
    WirePixel(k, w, h);
    WholePixel(k, w, h);
    var x, y, i := k % w, k / w, WireOf(k, w, h);
    TransposedAt(wire, w, h, 2, x, y, 0);
    TransposedAt(wire, w, h, 2, x, y, 1);
    WordOffset(x, y, h);
    WordOffset(y, x, w);
  }

  lemma WholePixel(k: nat, w: nat, h: nat)
    requires k < w * h
    ensures w > 0 && k % w < w && k / w < h && Mix(k / w, k % w, w) == k
  {
    assert w * h == h * w;
    MixSplit(k, h, w);
  }

  lemma WordOffset(a: nat, b: nat, base: nat)
    ensures Offset(a, b, base, 2, 0) == 2 * Mix(a, b, base) && Offset(a, b, base, 2, 1) == 2 * Mix(a, b, base) + 1
  {
  }

  function Flat(chunks: seq<seq<byte>>): seq<byte> {
    if chunks == [] then [] else chunks[0] + Flat(chunks[1..])
  }

  /** Every sample has a place, and one of its own if goroutines are at work. */
  predicate Roomy(n: nat, w: nat, h: nat, parallel: bool) {
    if parallel then n <= w * h else InBounds(n, w, h)
  }

  /** The body of a response, written to the sink in the chunks it happens to arrive in, by one Write or the other. */
  method Deliver(sink: U16Sink, chunks: seq<seq<byte>>, parallel: bool, gomaxprocs: nat)
    requires sink.Valid() && Roomy((|sink.received| + |Flat(chunks)|) / 2, sink.w, sink.h, parallel)
    modifies sink`x, sink`y, sink`held, sink`received, sink.pix, sink.carry
    ensures sink.Valid() && sink.received == old(sink.received) + Flat(chunks)
  {
    ghost var r := sink.received;
    for i := 0 to |chunks|
      invariant sink.Valid() && sink.received + Flat(chunks[i..]) == r + Flat(chunks)
    {
      assert chunks[i..][1..] == chunks[i + 1..];
      assert sink.received + chunks[i] + Flat(chunks[i + 1..]) == sink.received + Flat(chunks[i..]);
      if parallel {
        sink.ParWrite(chunks[i], gomaxprocs);
      } else {
        sink.Write(chunks[i]);
      }
    }
    assert chunks[|chunks|..] == [];
  }

  /** A message that decodes to a rank-2 frame of 16-bit samples. */
  predicate Word16Message(data: seq<byte>) {
    && |data| >= IMAGE_BYTES_HEADER_LEN
    && ToInt32(Le32(data, 4)) == 0
    && WireFrame(data).Transposes()
    && ElementSize(WireFrame(data).Transmit()) == 2
  }

  lemma DecodedSamples(data: seq<byte>)
    requires Word16Message(data)
    ensures var f := WireFrame(data);
            && |f.pixels| == 2 * (f.width * f.height)
            && Decode(data).Frame?
            && Widened(Decode(data).frame.pixels) == Image(f.pixels, f.width, f.height)
  {
    var f := WireFrame(data);
    ImageOfWire(f.pixels, f.width, f.height);
  }

  /**
   * For every message of 16-bit samples, every way of cutting its pixel bytes into chunks, and either sink with any
   * number of workers, streaming ends with the samples that decoding the buffered message gives.
   */
  method StreamFrame(data: seq<byte>, chunks: seq<seq<byte>>, parallel: bool, gomaxprocs: nat)
    returns (sink: U16Sink)
    requires Word16Message(data) && Flat(chunks) == data[DataStart(data)..]
    ensures Decode(data).Frame? && sink.pix[..] == Widened(Decode(data).frame.pixels)
  {
    sink := new U16Sink();
    var ok := sink.Header(ParseImageBytesHeader(data[..IMAGE_BYTES_HEADER_LEN]).header);
    HeaderPrefix(data);
    DecodedSamples(data);
    Deliver(sink, chunks, parallel, gomaxprocs);
    assert [] + Flat(chunks) == Flat(chunks);
  }

  /** Every encoded rank-2 frame of 16-bit samples is such a message, and its pixels are the frame's. */
  lemma EncodedMessage(f: ImageFrame, clientTx: word32, serverTx: word32)
    requires Fits(f) && f.Transposes() && ElementSize(f.Transmit()) == 2
    ensures var data := Encoded(f, clientTx, serverTx);
            Word16Message(data) && Decode(data).Frame? && Decode(data).frame.pixels == f.pixels
  {
    EncodedFields(f, clientTx, serverTx);
    RoundTrip(f, clientTx, serverTx);
  }
}
