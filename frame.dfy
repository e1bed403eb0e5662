/** Frame.cs: splitting a pair of feature files into aligned frames. */
module Frames {
  import opened Wrappers
  import opened Seqs
  import opened Matrix

  /** One training sample: the source features and the target features of
      the same analysis frame. */
  datatype Frame = Frame(sources: seq<real>, targets: seq<real>)

  /** The feature files: each existing path maps to the float[,] array stored
      in it (rows are frames, columns are feature dimensions). */
  type Files = map<string, Array2>

  datatype LoadError =
    /** ArgumentException: one of the two files does not exist; the message
        names both paths. */
    | MissingFile(sourcePath: string, targetPath: string)
    /** RankException: the two files hold different numbers of frames. */
    | FrameCountMismatch

  /** The frames of two arrays with the same row count: frame i pairs source
      row i with target row i. */
  function AlignedFrames(source: Array2, target: Array2): (frames: seq<Frame>)
    requires source.rows == target.rows
    ensures |frames| == source.rows
    ensures forall i :: 0 <= i < |frames| ==>
      |frames[i].sources| == source.cols && |frames[i].targets| == target.cols
    ensures forall i: nat, c: nat :: i < |frames| && c < source.cols ==> frames[i].sources[c] == At(source, i, c)
    ensures forall i: nat, c: nat :: i < |frames| && c < target.cols ==> frames[i].targets[c] == At(target, i, c)
  {
    var s := To2JaggedArray(source);
    var t := To2JaggedArray(target);
    seq(source.rows, i requires 0 <= i < source.rows => Frame(s[i], t[i]))
  }

  /** What FromFile produces for two paths. */
  function LoadFrames(files: Files, sourcePath: string, targetPath: string): (r: Result<seq<Frame>, LoadError>)
    ensures r.Failure? <==>
      sourcePath !in files || targetPath !in files || files[sourcePath].rows != files[targetPath].rows
    ensures sourcePath !in files || targetPath !in files ==> r == Failure(MissingFile(sourcePath, targetPath))
    ensures r.Success? ==> |r.value| == files[sourcePath].rows
  {
    if sourcePath !in files || targetPath !in files then
      Failure(MissingFile(sourcePath, targetPath))
    else if files[sourcePath].rows != files[targetPath].rows then
      Failure(FrameCountMismatch)
    else
      Success(AlignedFrames(files[sourcePath], files[targetPath]))
  }

  /** Frame.FromFile: checks both files, checks the frame counts, then cuts
      the row-major flattening of each array into one slice per frame. */
  method FromFile(files: Files, sourcePath: string, targetPath: string)
    returns (r: Result<seq<Frame>, LoadError>)
    ensures r == LoadFrames(files, sourcePath, targetPath)
  {
    if sourcePath !in files || targetPath !in files {
      return Failure(MissingFile(sourcePath, targetPath));
    }
    var sourceFeatures := files[sourcePath];
    var targetFeatures := files[targetPath];
    var featureLength := sourceFeatures.rows;
    if featureLength != targetFeatures.rows {
      return Failure(FrameCountMismatch);
    }
    var sourceDim := sourceFeatures.cols;
    var targetDim := targetFeatures.cols;
    var s := Flatten(sourceFeatures);
    var t := Flatten(targetFeatures);
    ghost var spec := AlignedFrames(sourceFeatures, targetFeatures);
    var frames: seq<Frame> := [];
    for i := 0 to featureLength
      invariant frames == spec[..i]
    {
      SliceIsFrame(sourceFeatures, targetFeatures, i);
      var frame := Frame(s[i * sourceDim .. i * sourceDim + sourceDim], t[i * targetDim .. i * targetDim + targetDim]);
      assert spec[..i + 1] == spec[..i] + [frame];
      frames := frames + [frame];
    }
    assert spec[..featureLength] == spec;
    return Success(frames);
  }

  /** Frame i is the pair of slices [i*D, i*D+D) of the two flattened arrays. */
  lemma SliceIsFrame(source: Array2, target: Array2, i: nat)
    requires source.rows == target.rows && i < source.rows
    ensures i * source.cols + source.cols <= |Flatten(source)|
    ensures i * target.cols + target.cols <= |Flatten(target)|
    ensures AlignedFrames(source, target)[i] ==
      Frame(Flatten(source)[i * source.cols .. i * source.cols + source.cols],
            Flatten(target)[i * target.cols .. i * target.cols + target.cols])
  {
    ChunkAt(source.data, source.rows, source.cols, i);
    ChunkAt(target.data, target.rows, target.cols, i);
  }

  function SourcesOf(frames: seq<Frame>): (rows: seq<seq<real>>)
    ensures |rows| == |frames|
  {
    seq(|frames|, i requires 0 <= i < |frames| => frames[i].sources)
  }

  function TargetsOf(frames: seq<Frame>): (rows: seq<seq<real>>)
    ensures |rows| == |frames|
  {
    seq(|frames|, i requires 0 <= i < |frames| => frames[i].targets)
  }

  /** The frames' sources, concatenated in order, are the row-major
      flattening of the source array, and likewise for the targets: no
      element is dropped, repeated or reordered. */
  lemma FramesCoverArrays(source: Array2, target: Array2)
    requires source.rows == target.rows
    ensures Concat(SourcesOf(AlignedFrames(source, target))) == Flatten(source)
    ensures Concat(TargetsOf(AlignedFrames(source, target))) == Flatten(target)
  {
    var frames := AlignedFrames(source, target);
    assert SourcesOf(frames) == To2JaggedArray(source);
    assert TargetsOf(frames) == To2JaggedArray(target);
  }
}
