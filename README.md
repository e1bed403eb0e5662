# VoiceConversionStarter core, modelled in Dafny

VoiceConversionStarter trains a frame-level converter of acoustic features
(mel-cepstra) from a source speaker to a target speaker. The parts of it that
are its own logic rather than ML.NET or TensorFlow plumbing are modelled here:

- **Frame splitting** (`Frame.FromFile`, module `Frames`): a pair of feature
  files, each a `float[,]` of frames by dimensions, becomes one aligned
  `Frame` per row. A missing file or unequal frame counts is an error value.
  The method slices the row-major flattening of each array the way the C#
  code does. It is proved equal to a row-by-row specification.
- **Dataset assembly in `Train`** (module `Training`): both directory
  listings are sorted ascending, paired by position (`Zip`, which stops at the
  shorter list), each pair's frames are loaded and concatenated in order
  (`SelectMany`), and the schema widths are taken from the first frame.
- **Array conversions and elementwise vector arithmetic** (`Matrix.cs`,
  module `Matrix`). A `float[,]` is modelled with its rows, columns and
  row-major data, as .NET stores it.
- **The `Eval` row pipeline** (module `Evaluation`): each input row `x` becomes
  `Div(Add(predict(Mul(Sub(x, sourceMeans), sourceVars)), targetMeans), targetVars)`,
  in row order. `predict` is any function the caller supplies.
- **`ProgressReporter`** (module `Progress`): a class whose `Log` updates
  `FinishCount` and `Elapsed`. It is specified by a pure step function over log
  messages, with the `hh:mm:ss.fffffff` duration parser modelled exactly.
- **The directory computed by `IO.SaveAsNPY`** (module `Paths`): the path
  split at the separator, without its last piece, joined again.

Floats are `real`; durations are integer TimeSpan ticks (100 ns).

Notes on the code:

- `Eval` maps a model output back as `(y + means) / vars`, which does not
  undo `(x - means) * vars` (`Evaluation.DenormalizeDoesNotInvert`). Under an
  identity model with target means 10 and scales 2, the row `[1, 2]` becomes
  `[5.5, 6]` (`Evaluation.IdentityModelExample`).
- The frame-count error of `FromFile` names neither paths nor counts; only
  the missing-file error names both paths.
- The statistics saved as `Means` and `Vars` are the normaliser's offset and
  scale (VoiceConversionStarter.Console) or its mean and standard deviation
  (VoiceConversion.Console), not a mean and a variance. The model treats them
  as plain vectors.
- `Train` does not check that the vector widths agree across files. The
  widths come from the first frame only.

## Model

| member | source | states |
|---|---|---|
| `Frames.FromFile` | VoiceConversionStarter.Common/Entity/Frame.cs:14-39 | The loop that slices the flattened arrays into frames gives exactly `LoadFrames`: the missing-file error, then the frame-count error, then one frame per row |
| `Frames.LoadFrames` | VoiceConversionStarter.Common/Entity/Frame.cs:16-25 | The result is an error exactly when a file is missing or the row counts differ. A missing file gives `MissingFile` naming both paths. On success there are as many frames as source rows |
| `Frames.AlignedFrames` | VoiceConversionStarter.Common/Entity/Frame.cs:27-38 | Frame i's sources have the source width and element c equal to source[i, c]. Its targets have the target width and element c equal to target[i, c] |
| `Frames.SliceIsFrame` | VoiceConversionStarter.Common/Entity/Frame.cs:30-37 | Frame i is the slice `[i*D, i*D+D)` of each flattened array, and both slices are in bounds |
| `Frames.FramesCoverArrays` | VoiceConversionStarter.Common/Entity/Frame.cs:30-37 | All frames' sources, concatenated in order, are the row-major flattening of the source array, and likewise for targets |
| `Seqs.SliceInBounds` | VoiceConversionStarter.Common/Entity/Frame.cs:33-37 | For `i < F`, the slice end `i*D + D` is at most `F*D` |
| `Matrix.Flatten` | VoiceConversionStarter.Common/Entity/Frame.cs:30-31 | Enumerating an array yields its rows concatenated in order |
| `Matrix.To2JaggedArray` | VoiceConversionStarter.Common/Util/Matrix.cs:13-16 | An R x C array gives R rows of length C; row r, column c is arr[r, c] |
| `Matrix.To2DimArray` | VoiceConversionStarter.Common/Util/Matrix.cs:8-11 | Rectangular rows give an array with one first index per row, as wide as the rows, whose [r, c] is rows[r][c] |
| `Matrix.JaggedOfDim` | VoiceConversionStarter.Common/Util/Matrix.cs:8-16 | `To2JaggedArray(To2DimArray(rows)) == rows` for rectangular rows |
| `Matrix.DimOfJagged` | VoiceConversionStarter.Common/Util/Matrix.cs:8-16 | `To2DimArray(To2JaggedArray(a)) == a`, except that an array with no rows loses its column count |
| `Matrix.Elementwise` | VoiceConversionStarter.Common/Util/Matrix.cs:18-36 | A binary operator on equal-length vectors gives a vector of that length, applied at every index |
| `Matrix.Add` | VoiceConversionStarter.Common/Util/Matrix.cs:18-21 | Same length; `r[k] == first[k] + second[k]` |
| `Matrix.Sub` | VoiceConversionStarter.Common/Util/Matrix.cs:23-26 | Same length; `r[k] == first[k] - second[k]` |
| `Matrix.Mul` | VoiceConversionStarter.Common/Util/Matrix.cs:28-31 | Same length; `r[k] == first[k] * second[k]` |
| `Matrix.Div` | VoiceConversionStarter.Common/Util/Matrix.cs:33-36 | Same length; `r[k] == first[k] / second[k]` for a divisor with no zero component |
| `Matrix.SubThenAdd` | VoiceConversionStarter.Common/Util/Matrix.cs:18-26 | `Add(Sub(x, m), m) == x` |
| `Matrix.MulThenDiv` | VoiceConversionStarter.Common/Util/Matrix.cs:28-36 | `Div(Mul(x, s), s) == x` when no s[k] is zero |
| `Training.BelowTotal` | VoiceConversionStarter.Console/Program.cs:58-59 | Any two file names are comparable in the ordinal order the sort uses |
| `Training.BelowTransitive` | VoiceConversionStarter.Console/Program.cs:58-59 | The ordinal order is transitive |
| `Training.BelowAntisymmetric` | VoiceConversionStarter.Console/Program.cs:58-59 | Two names each at most the other are equal, so the sorted order is unique |
| `Training.Sort` | VoiceConversionStarter.Console/Program.cs:58-59 | `OrderBy(n => n)`: the result is ascending and holds the listed names, each as often as listed |
| `Training.SortIgnoresListingOrder` | VoiceConversionStarter.Console/Program.cs:58-59 | Two listings of the same names sort to the same list, whatever order the directory returned them in |
| `Training.Zip` | VoiceConversionStarter.Console/Program.cs:62 | The pairs stop at the shorter list; pair i is (a[i], b[i]) |
| `Training.FilePairs` | VoiceConversionStarter.Console/Program.cs:58-62 | There are min(#source, #target) pairs; pair i is the i-th name of the sorted source listing with the i-th name of the sorted target listing, so both columns are ascending and every paired name comes from its own listing |
| `Training.UnpairedSourcesAreLargest` | VoiceConversionStarter.Console/Program.cs:58-62 | The paired source names and the dropped ones make up the source listing exactly, so no name is paired more often than listed; every dropped name sorts after every paired one |
| `Training.UnpairedTargetsAreLargest` | VoiceConversionStarter.Console/Program.cs:58-62 | The same for the target listing |
| `Training.LoadAll` | VoiceConversionStarter.Console/Program.cs:62 | A failing dataset fails with the error of one of its pairs (which one: `LoadAllFirstError`; success and contents: `LoadAllConcatenates`) |
| `Training.LoadAllConcatenates` | VoiceConversionStarter.Console/Program.cs:62 | The dataset loads exactly when every pair loads. It is then the in-order concatenation of each pair's frames |
| `Training.LoadAllFirstError` | VoiceConversionStarter.Console/Program.cs:62 | When pair k is the first that fails, the dataset fails with pair k's error |
| `Training.LoadAllLength` | VoiceConversionStarter.Console/Program.cs:62 | A loaded dataset has as many frames as the paired source files have rows in total |
| `Training.PrepareTraining` | VoiceConversionStarter.Console/Program.cs:58-68 | `Train` succeeds exactly when the dataset loads and is non-empty; it then holds the whole dataset and the widths of its first frame; a load error is passed on unchanged (widths per file: `WidthsFromFirstNonEmptyPair`, `TrainingWidths`) |
| `Training.WidthsFromFirstNonEmptyPair` | VoiceConversionStarter.Console/Program.cs:64-68 | The first frame's sources and targets are as wide as the files of the first pair holding a frame |
| `Training.NoFramesWhenAllEmpty` | VoiceConversionStarter.Console/Program.cs:64 | `First()` fails (NoFrames) exactly when every pair loads and no source file has a row |
| `Training.TrainingWidths` | VoiceConversion.Console/Program.cs:38-48 | A successful `Train` has the loaded dataset and takes the schema widths from the first non-empty pair of files |
| `Evaluation.Normalize` | VoiceConversionStarter.Console/Program.cs:156 | Component k is `(x[k] - means[k]) * vars[k]` |
| `Evaluation.Denormalize` | VoiceConversionStarter.Console/Program.cs:158 | Component k is `(y[k] + means[k]) / vars[k]` |
| `Evaluation.ConvertRows` | VoiceConversionStarter.Console/Program.cs:155-158 | One output row per input row, in order, each as wide as the target statistics; row i is computed from input row i alone |
| `Evaluation.Convert` | VoiceConversionStarter.Console/Program.cs:152-160 | The saved array has the input's row count and the target width; element [i, k] is `(predict(normalised row i)[k] + targetMeans[k]) / targetVars[k]` |
| `Evaluation.RowsAreIndependent` | VoiceConversionStarter.Console/Program.cs:155-158 | Two inputs that agree on row i give outputs that agree on row i |
| `Evaluation.IdentityModelExample` | VoiceConversionStarter.Console/Program.cs:155-158 | Identity model, zero/unit source statistics, target means 10 and vars 2: the row [1, 2] becomes [5.5, 6] |
| `Evaluation.DenormalizeDoesNotInvert` | VoiceConversionStarter.Console/Program.cs:156-158 | With means [10] and vars [2], normalising then denormalising [0] gives [-5] |
| `Progress.Contains` | VoiceConversionStarter.Console/Program.cs:189-190 | The empty string is contained in every message, and a contained string is no longer than the message (exactly when: `ContainsIffOccurs`) |
| `Progress.ContainsIffOccurs` | VoiceConversionStarter.Console/Program.cs:189-190 | `Contains(s, sub)` holds exactly when sub occurs at some index of s |
| `Progress.LastWord` | VoiceConversionStarter.Console/Program.cs:193 | `Split().Last()` is the longest suffix without white space: it is empty when the message ends in white space and is the whole message when there is none |
| `Progress.TrimEnd` | VoiceConversionStarter.Console/Program.cs:193 | The result is a prefix; everything removed is '.'; the result does not end in '.' |
| `Progress.ParseDuration` | VoiceConversionStarter.Console/Program.cs:194 | An accepted token has 16 characters and gives a duration under a day (accepted tokens exactly: `ParseOfFormat`, `FormatOfParse`) |
| `Progress.ParseOfFormat` | VoiceConversionStarter.Console/Program.cs:194 | Every duration under a day, written as hh:mm:ss.fffffff, parses back to its ticks |
| `Progress.FormatOfParse` | VoiceConversionStarter.Console/Program.cs:194 | Whatever the parser accepts is under a day and is exactly the hh:mm:ss.fffffff rendering of the value returned |
| `Progress.Step` | VoiceConversionStarter.Console/Program.cs:189-195 | One Log call raises FinishCount by one exactly for a message with both markers, never lowers Elapsed, and leaves Elapsed alone once FinishCount has reached Epoch |
| `Progress.Replay` | VoiceConversionStarter.Console/Program.cs:178-195 | After a sequence of Log calls on a fresh reporter, FinishCount is at most the number of messages, and Elapsed stays 0 when Epoch is not positive (exact values: `FinishCountCountsEpochMessages`, `ElapsedSumsFirstEpochs`) |
| `Progress.OtherMessagesIgnored` | VoiceConversionStarter.Console/Program.cs:189-190 | A message lacking either marker leaves FinishCount and Elapsed unchanged |
| `Progress.FinishCountCountsEpochMessages` | VoiceConversionStarter.Console/Program.cs:191-192 | FinishCount is the number of messages with both markers, also past Epoch |
| `Progress.ElapsedSumsFirstEpochs` | VoiceConversionStarter.Console/Program.cs:192-195 | Elapsed is the sum of the parsed durations of the first Epoch matching messages |
| `Progress.ElapsedFrozenAfterLastEpoch` | VoiceConversionStarter.Console/Program.cs:192 | Once FinishCount reaches Epoch, no later message changes Elapsed |
| `Progress.RemainingSeconds` | VoiceConversionStarter.Console/Program.cs:196 | The estimate is the average elapsed time per counted epoch times the number of epochs still to run |
| `Progress.RemainingBounds` | VoiceConversionStarter.Console/Program.cs:196 | `(Elapsed/FinishCount)*Epoch - Elapsed` is at least 0 for 1 <= FinishCount <= Epoch, and 0 when FinishCount = Epoch |
| `Progress.ProgressReporter.constructor` | VoiceConversionStarter.Console/Program.cs:178-185 | A new reporter has the given Epoch, FinishCount 0, Elapsed 0 and no messages |
| `Progress.ProgressReporter.Log` | VoiceConversionStarter.Console/Program.cs:187-198 | The new FinishCount and Elapsed are one `Step` from the old ones, which keeps them equal to the replay of all messages. The outcome is Ignored, PastLastEpoch, BadDuration or the printed estimate |
| `Progress.SingleEpochElapsed` | VoiceConversion.Console/Program.cs:127-135 | With Epoch = 1, Elapsed is the first matching message's duration (0 when there is none) |
| `Progress.SingleEpochEstimateIsZero` | VoiceConversion.Console/Program.cs:136 | With Epoch = 1, the estimate printed after the first matching message is 0 |
| `Paths.Split` | VoiceConversionStarter.Common/Util/IO.cs:10 | At least one piece, and no piece contains the separator |
| `Paths.JoinSplit` | VoiceConversionStarter.Common/Util/IO.cs:10-11 | Joining the pieces of a split gives the path back |
| `Paths.SplitJoin` | VoiceConversionStarter.Common/Util/IO.cs:10-11 | Splitting joined separator-free pieces gives the pieces back |
| `Paths.Join` | VoiceConversionStarter.Common/Util/IO.cs:11 | For separator-free pieces, the joined string holds a separator exactly when there are at least two pieces (inverse of `Split`: `JoinSplit`, `SplitJoin`) |
| `Paths.DirectoryOf` | VoiceConversionStarter.Common/Util/IO.cs:10-11 | A non-empty directory part needs a separator in the path (the directory exactly: `DirectoryAndName`, `DirectoryOfChild`) |
| `Paths.NoSeparatorNoDirectory` | VoiceConversionStarter.Common/Util/IO.cs:10-11 | A path without a separator gives the empty directory string |
| `Paths.DirectoryAndName` | VoiceConversionStarter.Common/Util/IO.cs:10-11 | With a separator, dir + sep + last piece == path. The directory has one piece fewer and is strictly shorter |
| `Paths.DirectoryOfChild` | VoiceConversionStarter.Common/Util/IO.cs:10-11 | The directory of `dir + sep + name` (name without separator) is dir |
| `Paths.SaveDirectoryAsWritten` | VoiceConversionStarter.Common/Util/IO.cs:10-12 | As written: fails exactly when the directory part is empty; otherwise it creates the directory part, which with the separator and the file name makes up the path |
| `Paths.BareFileNameFailsAsWritten` | VoiceConversionStarter.Common/Util/IO.cs:10-12 | As written, saving to any path without a separator (such as "out.npy") asks to create the empty directory, which fails |
| `Paths.SaveDirectory` | VoiceConversionStarter.Common/Util/IO.cs:10-12 | Corrected: a directory is created exactly when the path has a non-empty directory part, and it is the part before the last separator |
| `Paths.SaveDirectoryCorrected` | VoiceConversionStarter.Common/Util/IO.cs:10-12 | Corrected: a bare file name creates nothing; otherwise the same directory is created as by the code as written |
| `Paths.StatisticsDirectories` | VoiceConversionStarter.Console/Program.cs:122-127 | Saving `<save>/Source/Means` and the like creates `<save>/Source` (or `<save>/Target`) |

## Findings

| source | as written | input that shows it | evidently intended | confidence | as-written member | corrected member |
|---|---|---|---|---|---|---|
| VoiceConversionStarter.Common/Util/IO.cs:10-12 | `SaveAsNPY` always calls `Directory.CreateDirectory` on the path minus its last piece. For a bare file name (no separator) that is the empty string, which `CreateDirectory` rejects with ArgumentException | `SaveAsNPY(arr, "out.npy")`, or any path without a separator. The callers of this overload (VoiceConversionStarter.Console/Program.cs:122-127, VoiceConversion.Console/Program.cs:96-101) always pass a path with a separator. `eval-mcep`'s default output `out.npy` (Program.cs:51, 160) is saved through a two-dimensional overload that is not part of this model, so whether it hits the same defect is unverified | Create a directory only when the path has a directory part, and otherwise save into the working directory | low to medium, not executed | `Paths.BareFileNameFailsAsWritten` | `Paths.SaveDirectory` |

## Left out

- File I/O is not modelled: `np.Load`, `np.Save`, `LoadNPY`, `Directory.GetFiles`, `File.Create` and `Directory.CreateDirectory`. Files are a map from existing paths to arrays, and listings are given sequences of names. The `*.npy` filter of `GetFiles` is assumed done. A file that fails to load as a 2-D array is not modelled.
- ML.NET is not modelled: `NormalizeMeanVariance` fitting (`fixZero`, `useCdf`), `WithOnFitDelegate`, the TensorFlow retraining, and model save/load. The prediction engine is a function parameter, and the saved Means/Vars are plain vectors.
- The `IO.LoadNPY` and `IO.CreateDirectory` helpers and the `SaveAsNPY` overload for two-dimensional arrays that `Eval` and `Train` call are not part of this model; only the one-dimensional `SaveAsNPY` is.
- Command-line parsing (`Main`, the option classes) and console output are not modelled. The estimate is returned instead of printed.
- `Training.Sort`: uses ordinal (character-code) order, whereas `OrderBy` on strings uses the current culture's collation.
- `Matrix.Elementwise`, `Matrix.Add`, `Matrix.Sub`, `Matrix.Mul`, `Matrix.Div`: require equal lengths. NumSharp's broadcasting of a length-1 operand and its error on other length mismatches are not modelled.
- `Matrix.Div` and `Evaluation.Denormalize`: require a divisor with no zero component. Floating-point division by zero (infinity/NaN) is not modelled, and neither are float rounding and single precision in general.
- `Matrix.To2DimArray`: requires rectangular rows. A jagged input, for which the `as T[,]` cast gives null, and NumSharp's shape for an empty row list are not modelled.
- `Evaluation.Convert`: requires input rows as wide as the source statistics, and a `predict` that maps that width to the target width.
- `Frames.FromFile` is an iterator in C#, so its exceptions surface when the sequence is first enumerated. The model checks eagerly, so an error surfaces as the first failing pair's error of the whole dataset.
- `Progress.ProgressReporter.Log`: when `TimeSpan.ParseExact` throws, the C# handler ends with the exception. The model returns `BadDuration` with FinishCount already raised and Elapsed unchanged, and the reporter can go on logging.
- `Progress.RemainingSeconds` is computed in exact reals. The double arithmetic of `TotalSeconds`, the millisecond rounding of `TimeSpan.FromSeconds`, and the `hh\:mm\:ss` rendering of the estimate are not modelled.
- `Progress.ProgressReporter.Log`: the 32-bit overflow of `FinishCount` and the TimeSpan overflow of `Elapsed` are not modelled.
- `Networks/nn_mcep.py` (the TensorFlow graph) is not part of this model.
