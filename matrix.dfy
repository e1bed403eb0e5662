/** Matrix.cs: two-dimensional arrays, their conversion to and from rows,
    and the elementwise vector arithmetic used by the evaluation pipeline.
    Single-precision floats are modelled as `real`. */
module Matrix {
  import opened Seqs

  /** A rectangular `rows` x `cols` array in .NET's row-major memory order:
      element [r, c] is data[r * cols + c]. */
  datatype Grid = Grid(rows: nat, cols: nat, data: seq<real>)

  type Array2 = g: Grid | |g.data| == g.rows * g.cols witness Grid(0, 0, [])

  /** arr[r, c] */
  function At(a: Array2, r: nat, c: nat): real
    requires r < a.rows && c < a.cols
  {
    SliceInBounds(r, a.rows, a.cols);
    a.data[r * a.cols + c]
  }

  /** Enumerating a two-dimensional array (`Cast<float>().ToArray()`):
      its elements in row-major order, which is its rows concatenated. */
  function Flatten(a: Array2): (s: seq<real>)
    ensures s == Concat(To2JaggedArray(a))
  {
    ConcatChunks(a.data, a.rows, a.cols);
    a.data
  }

  /** Row r of the chunked data holds arr[r, c] at column c. */
  lemma RowElement(a: Array2, r: nat, c: nat)
    requires r < a.rows && c < a.cols
    ensures c < |Chunks(a.data, a.rows, a.cols)[r]| && Chunks(a.data, a.rows, a.cols)[r][c] == At(a, r, c)
  {
    ChunkAt(a.data, a.rows, a.cols, r);
  }

  /** The width of a list of rows: that of its first row, 0 when there is none. */
  function Width(rows: seq<seq<real>>): nat
  {
    if rows == [] then 0 else |rows[0]|
  }

  /** Every row is as wide as the first. */
  predicate Rectangular(rows: seq<seq<real>>)
  {
    Uniform(rows, Width(rows))
  }

  /** To2JaggedArray: one row per first index, each of length `cols`,
      with row r column c equal to arr[r, c]. */
  function To2JaggedArray(a: Array2): (rows: seq<seq<real>>)
    ensures |rows| == a.rows
    ensures Uniform(rows, a.cols)
    ensures forall r: nat, c: nat :: r < a.rows && c < a.cols ==> rows[r][c] == At(a, r, c)
  {
    ChunksUniform(a.data, a.rows, a.cols);
    forall r: nat, c: nat | r < a.rows && c < a.cols
      ensures Chunks(a.data, a.rows, a.cols)[r][c] == At(a, r, c)
    {
      RowElement(a, r, c);
    }
    Chunks(a.data, a.rows, a.cols)
  }

  /** To2DimArray of a rectangular list of rows: an array with one first
      index per row whose element [r, c] is rows[r][c]. */
  function To2DimArray(rows: seq<seq<real>>): (a: Array2)
    requires Rectangular(rows)
    ensures a.rows == |rows| && a.cols == Width(rows)
    ensures forall r: nat, c: nat :: r < a.rows && c < a.cols ==> At(a, r, c) == rows[r][c]
  {
    ConcatLength(rows, Width(rows));
    var a := Grid(|rows|, Width(rows), Concat(rows));
    forall r: nat, c: nat | r < a.rows && c < a.cols
      ensures At(a, r, c) == rows[r][c]
    {
      ColumnOfConcat(rows, r, c);
    }
    a
  }

  /** Element c of row r sits at r * width + c of the concatenated rows. */
  lemma ColumnOfConcat(rows: seq<seq<real>>, r: nat, c: nat)
    requires Rectangular(rows) && r < |rows| && c < Width(rows)
    ensures |Concat(rows)| == |rows| * Width(rows)
    ensures r * Width(rows) + c < |Concat(rows)|
    ensures Concat(rows)[r * Width(rows) + c] == rows[r][c]
  {
    ConcatLength(rows, Width(rows));
    ConcatRow(rows, Width(rows), r);
  }

  /** Converting rows to an array and back gives the same rows. */
  lemma JaggedOfDim(rows: seq<seq<real>>)
    requires Rectangular(rows)
    ensures To2JaggedArray(To2DimArray(rows)) == rows
  {
    ChunksConcat(rows, Width(rows));
  }

  /** Converting an array to rows and back gives the same array, except that
      an array without rows forgets its column count. */
  lemma DimOfJagged(a: Array2)
    requires a.rows > 0 || a.cols == 0
    ensures Rectangular(To2JaggedArray(a))
    ensures To2DimArray(To2JaggedArray(a)) == a
  {
    ConcatChunks(a.data, a.rows, a.cols);
  }

  // ---------------------------------------------------------------------
  // Elementwise arithmetic (NumSharp's +, -, *, / on two vectors)

  datatype Op = Plus | Minus | Times | Over

  /** No component is zero. */
  predicate NonZero(v: seq<real>)
  {
    forall k :: 0 <= k < |v| ==> v[k] != 0.0
  }

  function Apply(op: Op, x: real, y: real): real
    requires op == Over ==> y != 0.0
  {
    match op
    case Plus => x + y
    case Minus => x - y
    case Times => x * y
    case Over => x / y
  }

  /** The binary operator applied component by component. */
  function Elementwise(op: Op, a: seq<real>, b: seq<real>): (r: seq<real>)
    requires |a| == |b|
    requires op == Over ==> NonZero(b)
    ensures |r| == |a|
    ensures forall k :: 0 <= k < |a| ==> r[k] == Apply(op, a[k], b[k])
  {
    if a == [] then []
    else [Apply(op, a[0], b[0])] + Elementwise(op, a[1..], b[1..])
  }

  function Add(first: seq<real>, second: seq<real>): (r: seq<real>)
    requires |first| == |second|
    ensures |r| == |first|
    ensures forall k :: 0 <= k < |r| ==> r[k] == first[k] + second[k]
  {
    Elementwise(Plus, first, second)
  }

  function Sub(first: seq<real>, second: seq<real>): (r: seq<real>)
    requires |first| == |second|
    ensures |r| == |first|
    ensures forall k :: 0 <= k < |r| ==> r[k] == first[k] - second[k]
  {
    Elementwise(Minus, first, second)
  }

  function Mul(first: seq<real>, second: seq<real>): (r: seq<real>)
    requires |first| == |second|
    ensures |r| == |first|
    ensures forall k :: 0 <= k < |r| ==> r[k] == first[k] * second[k]
  {
    Elementwise(Times, first, second)
  }

  function Div(first: seq<real>, second: seq<real>): (r: seq<real>)
    requires |first| == |second|
    requires NonZero(second)
    ensures |r| == |first|
    ensures forall k :: 0 <= k < |r| ==> r[k] == first[k] / second[k]
  {
    Elementwise(Over, first, second)
  }

  /** Adding back what was subtracted restores the vector. */
  lemma SubThenAdd(x: seq<real>, m: seq<real>)
    requires |x| == |m|
    ensures Add(Sub(x, m), m) == x
  {
  }

  /** Dividing by a nonzero scale undoes multiplying by it. */
  lemma MulThenDiv(x: seq<real>, s: seq<real>)
    requires |x| == |s| && NonZero(s)
    ensures Div(Mul(x, s), s) == x
  {
    forall k | 0 <= k < |x|
      ensures Div(Mul(x, s), s)[k] == x[k]
    {
      CancelFactor(x[k], s[k]);
    }
  }

  lemma CancelFactor(x: real, s: real)
    requires s != 0.0
    ensures (x * s) / s == x
  {
    var q := (x * s) / s;
    assert q * s == x * s;
    assert (q - x) * s == 0.0;
  }
}
