/** Index arithmetic of grids stored in one flat buffer, and the transpose as a plain definition. */
module Grid {
  /** The mixed-radix index (a, b) with b running over 0..base. */
  function Mix(a: nat, b: nat, base: nat): nat {
    a * base + b
  }

  lemma MulMonotone(a: nat, b: nat, c: nat)
    requires a <= b
    ensures a * c <= b * c
  {
  }

  lemma MixBound(a: nat, b: nat, n: nat, base: nat)
    requires a < n && b < base
    ensures Mix(a, b, base) < n * base
  {
    MulMonotone(a + 1, n, base);
  }

  /** A mixed-radix index determines both of its digits. */
  lemma MixInjective(a: nat, b: nat, a': nat, b': nat, base: nat)
    requires b < base && b' < base
    requires Mix(a, b, base) == Mix(a', b', base)
    ensures a == a' && b == b'
  {
    if a < a' {
      MulMonotone(a + 1, a', base);
    } else if a' < a {
      MulMonotone(a' + 1, a, base);
    }
  }

  lemma MixInverse(a: nat, b: nat, base: nat)
    requires b < base
    ensures Mix(a, b, base) / base == a && Mix(a, b, base) % base == b
  {
    var k := Mix(a, b, base);
    MixInjective(a, b, k / base, k % base, base);
  }

  lemma MixSplit(k: nat, n: nat, base: nat)
    requires k < n * base
    ensures base > 0 && k / base < n && k % base < base && Mix(k / base, k % base, base) == k
  {
    if base > 0 && k / base >= n {
      MulMonotone(n, k / base, base);
    }
  }

  /** Where byte j of the element in row r and column c of a grid with the given number of columns sits. */
  function Offset(r: nat, c: nat, cols: nat, es: nat, j: nat): nat {
    Mix(Mix(r, c, cols), j, es)
  }

  lemma OffsetBound(r: nat, c: nat, rows: nat, cols: nat, es: nat, j: nat)
    requires r < rows && c < cols && j < es
    ensures Offset(r, c, cols, es, j) < rows * cols * es
  {
    MixBound(r, c, rows, cols);
    MixBound(Mix(r, c, cols), j, rows * cols, es);
  }

  /** The row, column and byte that live at flat index k. */
  function RowOf(k: nat, cols: nat, es: nat): nat
    requires cols > 0 && es > 0
  {
    k / es / cols
  }

  function ColOf(k: nat, cols: nat, es: nat): nat
    requires cols > 0 && es > 0
  {
    k / es % cols
  }

  lemma OffsetInverse(r: nat, c: nat, cols: nat, es: nat, j: nat)
    requires c < cols && j < es
    ensures var k := Offset(r, c, cols, es, j);
            RowOf(k, cols, es) == r && ColOf(k, cols, es) == c && k % es == j
  {
    MixInverse(Mix(r, c, cols), j, es);
    MixInverse(r, c, cols);
  }

  lemma OffsetSplit(k: nat, rows: nat, cols: nat, es: nat)
    requires k < rows * cols * es
    ensures cols > 0 && es > 0 && RowOf(k, cols, es) < rows && ColOf(k, cols, es) < cols && k % es < es
    ensures Offset(RowOf(k, cols, es), ColOf(k, cols, es), cols, es, k % es) == k
  {
    MixSplit(k, rows * cols, es);
    MixSplit(k / es, rows, cols);
  }

  /** d, a cols x rows grid, holds exactly the elements of s, a rows x cols grid, with the axes exchanged. */
  ghost predicate IsTranspose<T(!new)>(d: seq<T>, s: seq<T>, rows: nat, cols: nat, es: nat) {
    && |d| == |s| == rows * cols * es
    && forall r: nat, c: nat, j: nat {:trigger Offset(r, c, cols, es, j)} {:trigger Offset(c, r, rows, es, j)} |
         r < rows && c < cols && j < es ::
         && Offset(r, c, cols, es, j) < |s|
         && Offset(c, r, rows, es, j) < |d|
         && d[Offset(c, r, rows, es, j)] == s[Offset(r, c, cols, es, j)]
  }

  lemma SourceInRange(k: nat, rows: nat, cols: nat, es: nat)
    requires k < rows * cols * es
    ensures rows > 0 && es > 0
    ensures Offset(ColOf(k, rows, es), RowOf(k, rows, es), cols, es, k % es) < rows * cols * es
  {
    assert rows * cols * es == cols * rows * es;
    OffsetSplit(k, cols, rows, es);
    OffsetBound(ColOf(k, rows, es), RowOf(k, rows, es), rows, cols, es, k % es);
  }

  /** The transpose of a rows x cols grid of es-byte elements. */
  function Transposed<T>(s: seq<T>, rows: nat, cols: nat, es: nat): (d: seq<T>)
    requires |s| == rows * cols * es
    ensures |d| == |s|
  {
    seq(|s|, k requires 0 <= k < |s| =>
      SourceInRange(k, rows, cols, es);
      s[Offset(ColOf(k, rows, es), RowOf(k, rows, es), cols, es, k % es)])
  }

  lemma TransposedAt<T>(s: seq<T>, rows: nat, cols: nat, es: nat, r: nat, c: nat, j: nat)
    requires |s| == rows * cols * es
    requires r < rows && c < cols && j < es
    ensures Offset(c, r, rows, es, j) < |s| && Offset(r, c, cols, es, j) < |s|
    ensures Transposed(s, rows, cols, es)[Offset(c, r, rows, es, j)] == s[Offset(r, c, cols, es, j)]
  {
    assert rows * cols * es == cols * rows * es;
    OffsetBound(c, r, cols, rows, es, j);
    OffsetBound(r, c, rows, cols, es, j);
    OffsetInverse(c, r, rows, es, j);
  }

  /** Transposed is the one sequence that satisfies IsTranspose. */
  lemma TransposedUnique<T(!new)>(d: seq<T>, s: seq<T>, rows: nat, cols: nat, es: nat)
    requires |s| == rows * cols * es
    ensures IsTranspose(d, s, rows, cols, es) <==> d == Transposed(s, rows, cols, es)
  {
    var t := Transposed(s, rows, cols, es);
    forall r: nat, c: nat, j: nat | r < rows && c < cols && j < es
      ensures && Offset(c, r, rows, es, j) < |s| && Offset(r, c, cols, es, j) < |s|
              && t[Offset(c, r, rows, es, j)] == s[Offset(r, c, cols, es, j)]
    {
      TransposedAt(s, rows, cols, es, r, c, j);
    }
    if IsTranspose(d, s, rows, cols, es) {
      forall k | 0 <= k < |s|
        ensures d[k] == t[k]
      {
        assert rows * cols * es == cols * rows * es;
        OffsetSplit(k, cols, rows, es);
        var r, c, j := ColOf(k, rows, es), RowOf(k, rows, es), k % es;
        assert k == Offset(c, r, rows, es, j);
        assert d[k] == s[Offset(r, c, cols, es, j)];
      }
    }
  }

  /** Transposing back restores the grid. */
  lemma TransposedTwice<T>(s: seq<T>, rows: nat, cols: nat, es: nat)
    requires |s| == rows * cols * es
    ensures cols * rows * es == rows * cols * es
    ensures Transposed(Transposed(s, rows, cols, es), cols, rows, es) == s
  {
    assert rows * cols * es == cols * rows * es;
    var t := Transposed(s, rows, cols, es);
    forall k | 0 <= k < |s|
      ensures Transposed(t, cols, rows, es)[k] == s[k]
    {
      OffsetSplit(k, rows, cols, es);
      var r, c, j := RowOf(k, cols, es), ColOf(k, cols, es), k % es;
      TransposedAt(s, rows, cols, es, r, c, j);
      TransposedAt(t, cols, rows, es, c, r, j);
    }
  }
}
