/** The dataset assembly at the start of `Train` (both console programs):
    list the two feature directories, sort each list ascending, pair the
    files by position, load each pair's frames and concatenate them, and take
    the vector widths of the training schema from the first frame. */
module Training {
  import opened Wrappers
  import opened Seqs
  import opened Matrix
  import opened Frames

  // ---------------------------------------------------------------------
  // Ascending order of file names (OrderBy(n => n))

  /** a comes no later than b in character-code lexicographic order. */
  predicate Below(a: string, b: string)
  {
    a == [] || (b != [] && (a[0] < b[0] || (a[0] == b[0] && Below(a[1..], b[1..]))))
  }

  lemma {:induction false} BelowReflexive(a: string)
    ensures Below(a, a)
  {
    if a != [] {
      BelowReflexive(a[1..]);
    }
  }

  lemma {:induction false} BelowTotal(a: string, b: string)
    ensures Below(a, b) || Below(b, a)
  {
    if a != [] && b != [] && a[0] == b[0] {
      BelowTotal(a[1..], b[1..]);
    }
  }

  lemma {:induction false} BelowTransitive(a: string, b: string, c: string)
    requires Below(a, b) && Below(b, c)
    ensures Below(a, c)
  {
    if a != [] && b != [] && c != [] && a[0] == b[0] == c[0] {
      BelowTransitive(a[1..], b[1..], c[1..]);
    }
  }

  lemma {:induction false} BelowAntisymmetric(a: string, b: string)
    requires Below(a, b) && Below(b, a)
    ensures a == b
  {
    if a != [] && b != [] {
      BelowAntisymmetric(a[1..], b[1..]);
      assert a == [a[0]] + a[1..] && b == [b[0]] + b[1..];
    }
  }

  predicate Ascending(s: seq<string>)
  {
    forall i, j :: 0 <= i < j < |s| ==> Below(s[i], s[j])
  }

  function Insert(x: string, s: seq<string>): seq<string>
  {
    if s == [] || Below(x, s[0]) then [x] + s else [s[0]] + Insert(x, s[1..])
  }

  lemma {:induction false} InsertElements(x: string, s: seq<string>)
    ensures multiset(Insert(x, s)) == multiset(s) + multiset{x}
  {
    if s != [] && !Below(x, s[0]) {
      InsertElements(x, s[1..]);
      assert s == [s[0]] + s[1..];
    }
  }

  lemma {:induction false} InsertAscending(x: string, s: seq<string>)
    requires Ascending(s)
    ensures Ascending(Insert(x, s))
  {
    if s == [] {
    } else if Below(x, s[0]) {
      forall j | 0 < j < |s|
        ensures Below(x, s[j])
      {
        BelowTransitive(x, s[0], s[j]);
      }
    } else {
      BelowTotal(x, s[0]);
      var rest := Insert(x, s[1..]);
      InsertAscending(x, s[1..]);
      InsertElements(x, s[1..]);
      forall j | 0 <= j < |rest|
        ensures Below(s[0], rest[j])
      {
        assert rest[j] in multiset(rest);
        if rest[j] != x {
          assert rest[j] in s[1..];
        }
      }
    }
  }

  /** OrderBy(n => n) on a directory listing: the names in ascending order,
      each exactly as often as listed. */
  function Sort(names: seq<string>): (r: seq<string>)
    ensures Ascending(r)
    ensures multiset(r) == multiset(names)
  {
    if names == [] then []
    else
      var rest := Sort(names[1..]);
      InsertAscending(names[0], rest);
      InsertElements(names[0], rest);
      assert names == [names[0]] + names[1..];
      Insert(names[0], rest)
  }

  /** The first element of an ascending sequence comes no later than any
      of its elements. */
  lemma HeadIsLeast(s: seq<string>, x: string)
    requires Ascending(s) && x in multiset(s)
    ensures s != [] && Below(s[0], x)
  {
    var j :| 0 <= j < |s| && s[j] == x;
    if j == 0 { BelowReflexive(x); }
  }

  lemma SplitHead(s: seq<string>)
    requires s != []
    ensures multiset(s[1..]) == multiset(s) - multiset{s[0]}
  {
    assert s == [s[0]] + s[1..];
  }

  /** Two ascending sequences with the same elements are the same sequence. */
  lemma {:induction false} AscendingUnique(a: seq<string>, b: seq<string>)
    requires Ascending(a) && Ascending(b) && multiset(a) == multiset(b)
    ensures a == b
  {
    if a == [] {
      assert |multiset(b)| == 0;
    } else {
      assert a[0] in multiset(a);
      HeadIsLeast(b, a[0]);
      assert b[0] in multiset(b);
      HeadIsLeast(a, b[0]);
      BelowAntisymmetric(a[0], b[0]);
      SplitHead(a);
      SplitHead(b);
      AscendingUnique(a[1..], b[1..]);
      assert a == [a[0]] + a[1..] && b == [b[0]] + b[1..];
    }
  }

  /** The sorted file list does not depend on the order the directory
      listing returned the names in. */
  lemma SortIgnoresListingOrder(listing1: seq<string>, listing2: seq<string>)
    requires multiset(listing1) == multiset(listing2)
    ensures Sort(listing1) == Sort(listing2)
  {
    AscendingUnique(Sort(listing1), Sort(listing2));
  }

  // ---------------------------------------------------------------------
  // Pairing and concatenation

  function Min(a: nat, b: nat): nat
  {
    if a <= b then a else b
  }

  /** Enumerable.Zip: pairs elements by position, stopping at the end of the
      shorter sequence. */
  function Zip<A, B>(a: seq<A>, b: seq<B>): (r: seq<(A, B)>)
    ensures |r| == Min(|a|, |b|)
    ensures forall i :: 0 <= i < |r| ==> r[i] == (a[i], b[i])
  {
    if a == [] || b == [] then [] else [(a[0], b[0])] + Zip(a[1..], b[1..])
  }

  /** The (source file, target file) pairs of `Train`: the i-th name of each
      sorted listing, for as many positions as the shorter listing has. */
  function FilePairs(sourceListing: seq<string>, targetListing: seq<string>): (pairs: seq<(string, string)>)
    ensures |pairs| == Min(|sourceListing|, |targetListing|)
    ensures forall i :: 0 <= i < |pairs| ==> pairs[i] == (Sort(sourceListing)[i], Sort(targetListing)[i])
    ensures forall i, j :: 0 <= i < j < |pairs| ==> Below(pairs[i].0, pairs[j].0) && Below(pairs[i].1, pairs[j].1)
    ensures forall i :: 0 <= i < |pairs| ==> pairs[i].0 in sourceListing && pairs[i].1 in targetListing
  {
    var sources := Sort(sourceListing);
    var targets := Sort(targetListing);
    var pairs := Zip(sources, targets);
    forall i | 0 <= i < |pairs|
      ensures pairs[i].0 in sourceListing && pairs[i].1 in targetListing
    {
      assert sources[i] in multiset(sources);
      assert targets[i] in multiset(targets);
    }
    pairs
  }

  /** The first (second) component of every pair, in pair order. */
  function Firsts(pairs: seq<(string, string)>): seq<string>
  {
    seq(|pairs|, i requires 0 <= i < |pairs| => pairs[i].0)
  }

  function Seconds(pairs: seq<(string, string)>): seq<string>
  {
    seq(|pairs|, i requires 0 <= i < |pairs| => pairs[i].1)
  }

  /** Zip drops the tail of the longer sorted listing: the paired source
      names and the dropped ones together are exactly the listing, so no name
      is paired more often than it is listed, and every dropped name comes
      after every paired one. */
  lemma UnpairedSourcesAreLargest(sourceListing: seq<string>, targetListing: seq<string>)
    ensures var pairs, sources := FilePairs(sourceListing, targetListing), Sort(sourceListing);
      multiset(Firsts(pairs)) + multiset(sources[|pairs|..]) == multiset(sourceListing) &&
      forall i, j :: 0 <= i < |pairs| <= j < |sources| ==> Below(pairs[i].0, sources[j])
  {
    var pairs := FilePairs(sourceListing, targetListing);
    PairedPrefix(Firsts(pairs), Sort(sourceListing));
  }

  /** The same for the target listing. */
  lemma UnpairedTargetsAreLargest(sourceListing: seq<string>, targetListing: seq<string>)
    ensures var pairs, targets := FilePairs(sourceListing, targetListing), Sort(targetListing);
      multiset(Seconds(pairs)) + multiset(targets[|pairs|..]) == multiset(targetListing) &&
      forall i, j :: 0 <= i < |pairs| <= j < |targets| ==> Below(pairs[i].1, targets[j])
  {
    var pairs := FilePairs(sourceListing, targetListing);
    PairedPrefix(Seconds(pairs), Sort(targetListing));
  }

  /** A prefix of an ascending list: it and the rest make up the list, and
      the rest comes after it. */
  lemma PairedPrefix(paired: seq<string>, sorted: seq<string>)
    requires Ascending(sorted) && |paired| <= |sorted|
    requires forall i :: 0 <= i < |paired| ==> paired[i] == sorted[i]
    ensures multiset(paired) + multiset(sorted[|paired|..]) == multiset(sorted)
    ensures forall i, j :: 0 <= i < |paired| <= j < |sorted| ==> Below(paired[i], sorted[j])
  {
    assert sorted == paired + sorted[|paired|..];
  }

  /** SelectMany over the pairs: every pair's frames in pair order; the first
      pair that fails to load fails the whole dataset. */
  function LoadAll(files: Files, pairs: seq<(string, string)>): (r: Result<seq<Frame>, LoadError>)
    ensures r.Failure? ==> exists k :: 0 <= k < |pairs| && LoadFrames(files, pairs[k].0, pairs[k].1) == Failure(r.error)
  {
    if pairs == [] then Success([])
    else
      match LoadFrames(files, pairs[0].0, pairs[0].1)
      case Failure(e) => Failure(e)
      case Success(first) =>
        match LoadAll(files, pairs[1..])
        case Failure(e) =>
          var k :| 0 <= k < |pairs| - 1 && LoadFrames(files, pairs[1..][k].0, pairs[1..][k].1) == Failure(e);
          assert pairs[1..][k] == pairs[k + 1];
          Failure(e)
        case Success(rest) => Success(first + rest)
  }

  predicate Loads(files: Files, pair: (string, string))
  {
    LoadFrames(files, pair.0, pair.1).Success?
  }

  predicate AllLoad(files: Files, pairs: seq<(string, string)>)
  {
    forall i :: 0 <= i < |pairs| ==> Loads(files, pairs[i])
  }

  /** The frames of each pair, one list per pair. */
  function FramesPerPair(files: Files, pairs: seq<(string, string)>): (r: seq<seq<Frame>>)
    requires AllLoad(files, pairs)
    ensures |r| == |pairs|
  {
    seq(|pairs|, i requires 0 <= i < |pairs| && Loads(files, pairs[i]) =>
      LoadFrames(files, pairs[i].0, pairs[i].1).value)
  }

  /** The dataset loads exactly when every pair loads, and is then the
      in-order concatenation of the pairs' frames. */
  lemma {:induction false} LoadAllConcatenates(files: Files, pairs: seq<(string, string)>)
    ensures LoadAll(files, pairs).Success? <==> AllLoad(files, pairs)
    ensures AllLoad(files, pairs) ==> LoadAll(files, pairs).value == Concat(FramesPerPair(files, pairs))
  {
    if pairs != [] {
      LoadAllConcatenates(files, pairs[1..]);
      if AllLoad(files, pairs) {
        assert AllLoad(files, pairs[1..]) by {
          forall i | 0 <= i < |pairs| - 1
            ensures Loads(files, pairs[1..][i])
          {
            assert pairs[1..][i] == pairs[i + 1];
          }
        }
        assert FramesPerPair(files, pairs)[1..] == FramesPerPair(files, pairs[1..]);
      } else if Loads(files, pairs[0]) {
        var i :| 0 <= i < |pairs| && !Loads(files, pairs[i]);
        assert !Loads(files, pairs[1..][i - 1]);
      }
    }
  }

  /** When pair k is the first that fails, the dataset fails with its error. */
  lemma {:induction false} LoadAllFirstError(files: Files, pairs: seq<(string, string)>, k: nat)
    requires k < |pairs| && !Loads(files, pairs[k])
    requires forall j :: 0 <= j < k ==> Loads(files, pairs[j])
    ensures LoadAll(files, pairs) == Failure(LoadFrames(files, pairs[k].0, pairs[k].1).error)
  {
    if k > 0 {
      LoadAllFirstError(files, pairs[1..], k - 1);
    }
  }

  predicate SourcesExist(files: Files, pairs: seq<(string, string)>)
  {
    forall i :: 0 <= i < |pairs| ==> pairs[i].0 in files
  }

  /** Number of frames the pairs hold: the row counts of the source files. */
  function TotalRows(files: Files, pairs: seq<(string, string)>): nat
    requires SourcesExist(files, pairs)
  {
    if pairs == [] then 0 else files[pairs[0].0].rows + TotalRows(files, pairs[1..])
  }

  /** A loaded dataset has one frame per source row of every paired file. */
  lemma {:induction false} LoadAllLength(files: Files, pairs: seq<(string, string)>)
    requires LoadAll(files, pairs).Success?
    ensures SourcesExist(files, pairs)
    ensures |LoadAll(files, pairs).value| == TotalRows(files, pairs)
  {
    LoadAllConcatenates(files, pairs);
    if pairs != [] {
      LoadAllLength(files, pairs[1..]);
    }
  }

  // ---------------------------------------------------------------------
  // The training set and its schema

  datatype TrainingSet = TrainingSet(dataset: seq<Frame>, sourceWidth: nat, targetWidth: nat)

  datatype TrainError =
    | Load(cause: LoadError)
    /** `datasets.First()` on an empty dataset (InvalidOperationException). */
    | NoFrames

  /** The dataset of `Train` and the vector widths of its schema, taken from
      the first frame. */
  function PrepareTraining(files: Files, sourceListing: seq<string>, targetListing: seq<string>)
    : (r: Result<TrainingSet, TrainError>)
    ensures r.Success? <==> LoadAll(files, FilePairs(sourceListing, targetListing)).Success? &&
                            LoadAll(files, FilePairs(sourceListing, targetListing)).value != []
    ensures r.Success? ==> r.value.dataset == LoadAll(files, FilePairs(sourceListing, targetListing)).value
    ensures r.Success? ==> r.value.sourceWidth == |r.value.dataset[0].sources| &&
                           r.value.targetWidth == |r.value.dataset[0].targets|
    ensures r.Failure? && r.error.Load? ==> LoadAll(files, FilePairs(sourceListing, targetListing)) == Failure(r.error.cause)
  {
    match LoadAll(files, FilePairs(sourceListing, targetListing))
    case Failure(e) => Failure(Load(e))
    case Success(dataset) =>
      if dataset == [] then Failure(NoFrames)
      else Success(TrainingSet(dataset, |dataset[0].sources|, |dataset[0].targets|))
  }

  /** The schema widths are the column counts of the first pair of files that
      holds at least one frame; pairs before it contribute nothing. */
  lemma {:induction false} WidthsFromFirstNonEmptyPair(files: Files, pairs: seq<(string, string)>, k: nat)
    requires LoadAll(files, pairs).Success?
    requires k < |pairs| && pairs[k].0 in files && files[pairs[k].0].rows > 0
    requires forall j :: 0 <= j < k ==> pairs[j].0 in files && files[pairs[j].0].rows == 0
    ensures pairs[k].1 in files
    ensures LoadAll(files, pairs).value != []
    ensures |LoadAll(files, pairs).value[0].sources| == files[pairs[k].0].cols
    ensures |LoadAll(files, pairs).value[0].targets| == files[pairs[k].1].cols
  {
    if k > 0 {
      WidthsFromFirstNonEmptyPair(files, pairs[1..], k - 1);
    }
  }

  /** `Train` fails with NoFrames exactly when every pair loads and no
      source file holds a frame. */
  lemma NoFramesWhenAllEmpty(files: Files, sourceListing: seq<string>, targetListing: seq<string>)
    ensures PrepareTraining(files, sourceListing, targetListing) == Failure(NoFrames) <==>
      (LoadAll(files, FilePairs(sourceListing, targetListing)).Success? &&
       SourcesExist(files, FilePairs(sourceListing, targetListing)) &&
       TotalRows(files, FilePairs(sourceListing, targetListing)) == 0)
  {
    var pairs := FilePairs(sourceListing, targetListing);
    if LoadAll(files, pairs).Success? {
      LoadAllLength(files, pairs);
    }
  }

  /** The training schema of a successful `Train`: widths from the first
      non-empty pair of files. */
  lemma TrainingWidths(files: Files, sourceListing: seq<string>, targetListing: seq<string>, k: nat)
    requires LoadAll(files, FilePairs(sourceListing, targetListing)).Success?
    requires k < |FilePairs(sourceListing, targetListing)|
    requires var pairs := FilePairs(sourceListing, targetListing);
      pairs[k].0 in files && files[pairs[k].0].rows > 0 &&
      forall j :: 0 <= j < k ==> pairs[j].0 in files && files[pairs[j].0].rows == 0
    ensures var pairs := FilePairs(sourceListing, targetListing);
      pairs[k].1 in files &&
      PrepareTraining(files, sourceListing, targetListing) ==
        Success(TrainingSet(LoadAll(files, pairs).value, files[pairs[k].0].cols, files[pairs[k].1].cols))
  {
    WidthsFromFirstNonEmptyPair(files, FilePairs(sourceListing, targetListing), k);
  }
}
