/** The conversion at the heart of `Eval`: every input row is normalised with
    the source statistics, passed through the trained model, and mapped back
    with the target statistics, in row order. The model's prediction is an
    arbitrary function supplied by the caller. */
module Evaluation {
  import opened Seqs
  import opened Matrix

  /** A statistics directory as `Train` writes it: `Means` (the affine
      normaliser's offsets) and `Vars` (its scales), one value per dimension. */
  datatype Statistics = Statistics(means: seq<real>, vars: seq<real>)

  predicate WellSized(st: Statistics, width: nat)
  {
    |st.means| == width && |st.vars| == width
  }

  /** The prediction engine maps every vector of the input width to a vector
      of the output width. */
  ghost predicate Maps(predict: seq<real> -> seq<real>, inWidth: nat, outWidth: nat)
  {
    forall x :: |x| == inWidth ==> |predict(x)| == outWidth
  }

  /** Mul(Sub(x, means), vars): the source-side normalisation of one row. */
  function Normalize(x: seq<real>, st: Statistics): (n: seq<real>)
    requires WellSized(st, |x|)
    ensures |n| == |x|
    ensures forall k :: 0 <= k < |x| ==> n[k] == (x[k] - st.means[k]) * st.vars[k]
  {
    Mul(Sub(x, st.means), st.vars)
  }

  /** Div(Add(y, means), vars): the target-side mapping of one model output. */
  function Denormalize(y: seq<real>, st: Statistics): (v: seq<real>)
    requires WellSized(st, |y|) && NonZero(st.vars)
    ensures |v| == |y|
    ensures forall k :: 0 <= k < |y| ==> v[k] == (y[k] + st.means[k]) / st.vars[k]
  {
    Div(Add(y, st.means), st.vars)
  }

  /** What the three Select calls do to one row. */
  function ConvertRow(x: seq<real>, source: Statistics, target: Statistics, predict: seq<real> -> seq<real>): seq<real>
    requires WellSized(source, |x|) && WellSized(target, |target.means|) && NonZero(target.vars)
    requires Maps(predict, |x|, |target.means|)
  {
    Denormalize(predict(Normalize(x, source)), target)
  }

  /** The Select chain over the rows: one output row per input row, in the
      same order, each computed from its own input row alone, all of the
      target width. */
  function ConvertRows(rows: seq<seq<real>>, source: Statistics, target: Statistics, predict: seq<real> -> seq<real>)
    : (out: seq<seq<real>>)
    requires Uniform(rows, |source.means|) && WellSized(source, |source.means|)
    requires WellSized(target, |target.means|) && NonZero(target.vars)
    requires Maps(predict, |source.means|, |target.means|)
    ensures |out| == |rows|
    ensures Uniform(out, |target.means|)
    ensures forall i :: 0 <= i < |rows| ==> out[i] == ConvertRow(rows[i], source, target, predict)
  {
    if rows == [] then []
    else [ConvertRow(rows[0], source, target, predict)] + ConvertRows(rows[1..], source, target, predict)
  }

  /** The array `Eval` saves: To2DimArray of the converted rows of the input
      array. Element [i, k] is (predict(normalised row i)[k] + means[k]) / vars[k]
      with the target statistics. */
  function Convert(input: Array2, source: Statistics, target: Statistics, predict: seq<real> -> seq<real>)
    : (out: Array2)
    requires WellSized(source, input.cols)
    requires WellSized(target, |target.means|) && NonZero(target.vars)
    requires Maps(predict, input.cols, |target.means|)
    ensures out.rows == input.rows
    ensures input.rows > 0 ==> out.cols == |target.means|
    ensures forall i: nat, k: nat :: i < out.rows && k < out.cols ==>
      |predict(Normalize(To2JaggedArray(input)[i], source))| == |target.means| &&
      At(out, i, k) == (predict(Normalize(To2JaggedArray(input)[i], source))[k] + target.means[k]) / target.vars[k]
  {
    var rows := ConvertRows(To2JaggedArray(input), source, target, predict);
    assert Rectangular(rows) by {
      if rows != [] { assert Width(rows) == |target.means|; }
    }
    To2DimArray(rows)
  }

  /** Output row i depends on input row i only: two inputs that agree on row i
      give outputs that agree on row i. */
  lemma RowsAreIndependent(input1: Array2, input2: Array2, source: Statistics, target: Statistics,
                           predict: seq<real> -> seq<real>, i: nat)
    requires input1.cols == input2.cols
    requires WellSized(source, input1.cols)
    requires WellSized(target, |target.means|) && NonZero(target.vars)
    requires Maps(predict, input1.cols, |target.means|)
    requires i < input1.rows && i < input2.rows
    requires To2JaggedArray(input1)[i] == To2JaggedArray(input2)[i]
    ensures To2JaggedArray(Convert(input1, source, target, predict))[i] ==
            To2JaggedArray(Convert(input2, source, target, predict))[i]
  {
  }

  /** An identity model with zero source means, unit source scales, target
      means 10 and target scales 2 maps the row [1, 2] to [5.5, 6]: the
      target statistics are applied as (y + means) / vars. */
  lemma IdentityModelExample()
    ensures Convert(Grid(1, 2, [1.0, 2.0]), Statistics([0.0, 0.0], [1.0, 1.0]),
                    Statistics([10.0, 10.0], [2.0, 2.0]), x => x)
         == Grid(1, 2, [5.5, 6.0])
  {
  }

  /** Mapping a normalised vector back with the same statistics does not give
      the vector back: with means [10] and vars [2], the vector [0] comes
      back as [-5]. */
  lemma DenormalizeDoesNotInvert()
    ensures Denormalize(Normalize([0.0], Statistics([10.0], [2.0])), Statistics([10.0], [2.0])) == [-5.0]
  {
    var st := Statistics([10.0], [2.0]);
    assert Normalize([0.0], st) == [-20.0];
  }
}
