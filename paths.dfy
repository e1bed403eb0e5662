/** IO.SaveAsNPY: before saving an array it creates the directory that will
    hold the file, computed by splitting the path at the directory separator,
    dropping the last piece and joining the rest. Saving itself is I/O and is
    not modelled. */
module Paths {
  import opened Wrappers

  /** String.Split(sep): the pieces between separators, empty pieces kept. */
  function Split(s: string, sep: char): (parts: seq<string>)
    ensures |parts| >= 1
    ensures forall i :: 0 <= i < |parts| ==> sep !in parts[i]
  {
    if s == [] then [[]]
    else if s[0] == sep then [[]] + Split(s[1..], sep)
    else
      var rest := Split(s[1..], sep);
      [[s[0]] + rest[0]] + rest[1..]
  }

  /** String.Join(sep, parts). */
  function Join(parts: seq<string>, sep: char): (joined: string)
    ensures (forall i :: 0 <= i < |parts| ==> sep !in parts[i]) ==> (sep in joined <==> |parts| >= 2)
  {
    if parts == [] then []
    else if |parts| == 1 then parts[0]
    else parts[0] + [sep] + Join(parts[1..], sep)
  }

  /** Joining the pieces of a split gives the string back. */
  lemma {:induction false} JoinSplit(s: string, sep: char)
    ensures Join(Split(s, sep), sep) == s
  {
    if s != [] {
      JoinSplit(s[1..], sep);
      var rest := Split(s[1..], sep);
      if s[0] == sep {
        assert s == [sep] + s[1..];
      } else if |rest| == 1 {
        assert s == [s[0]] + s[1..];
      } else {
        assert ([[s[0]] + rest[0]] + rest[1..])[1..] == rest[1..];
        assert s == [s[0]] + s[1..];
      }
    }
  }

  /** Splitting joined separator-free pieces gives the pieces back. */
  lemma {:induction false} SplitJoin(parts: seq<string>, sep: char)
    requires |parts| >= 1
    requires forall i :: 0 <= i < |parts| ==> sep !in parts[i]
    ensures Split(Join(parts, sep), sep) == parts
  {
    if |parts| == 1 {
      SplitPiece(parts[0], sep);
    } else {
      SplitJoin(parts[1..], sep);
      SplitAppend(parts[0], Join(parts[1..], sep), sep);
      SplitPiece(parts[0], sep);
      assert parts == [parts[0]] + parts[1..];
    }
  }

  /** A piece without separators splits into itself. */
  lemma {:induction false} SplitPiece(s: string, sep: char)
    requires sep !in s
    ensures Split(s, sep) == [s]
  {
    if s != [] {
      SplitPiece(s[1..], sep);
      assert s == [s[0]] + s[1..];
    }
  }

  /** Split of a string that starts with character c. */
  lemma SplitCons(c: char, t: string, sep: char)
    ensures Split([c] + t, sep) ==
      if c == sep then [[]] + Split(t, sep) else [[c] + Split(t, sep)[0]] + Split(t, sep)[1..]
  {
    assert ([c] + t)[0] == c && ([c] + t)[1..] == t;
  }

  /** Splitting at a separator: the pieces of the left side, then those of
      the right side. */
  lemma {:induction false} SplitAppend(a: string, b: string, sep: char)
    ensures Split(a + [sep] + b, sep) == Split(a, sep) + Split(b, sep)
  {
    if a == [] {
      assert a + [sep] + b == [sep] + b;
      SplitCons(sep, b, sep);
    } else {
      var t := a[1..] + [sep] + b;
      assert a + [sep] + b == [a[0]] + t;
      assert a == [a[0]] + a[1..];
      SplitAppend(a[1..], b, sep);
      SplitCons(a[0], t, sep);
      SplitCons(a[0], a[1..], sep);
    }
  }

  /** Split at a separator followed by a separator-free name: the pieces of
      the left side, then the name. */
  lemma SplitChild(dir: string, name: string, sep: char)
    requires sep !in name
    ensures Split(dir + [sep] + name, sep) == Split(dir, sep) + [name]
  {
    SplitAppend(dir, name, sep);
    SplitPiece(name, sep);
  }

  /** Join of all pieces but the last, then the separator, then the last. */
  lemma {:induction false} JoinLast(parts: seq<string>, sep: char)
    requires |parts| >= 2
    ensures Join(parts, sep) == Join(parts[..|parts| - 1], sep) + [sep] + parts[|parts| - 1]
  {
    if |parts| > 2 {
      JoinLast(parts[1..], sep);
      assert parts[1..][..|parts| - 2] == parts[..|parts| - 1][1..];
    }
  }

  /** The directory part of a path: all pieces but the last, re-joined. */
  function DirectoryOf(path: string, sep: char): (dir: string)
    ensures dir != [] ==> sep in path
  {
    var parts := Split(path, sep);
    var dir := Join(parts[..|parts| - 1], sep);
    if sep in path then dir else SplitPiece(path, sep); dir
  }

  /** The last piece of a path: the file name. */
  function FileName(path: string, sep: char): (name: string)
    ensures sep !in name
  {
    var parts := Split(path, sep);
    parts[|parts| - 1]
  }

  /** A path without a separator has no directory part. */
  lemma NoSeparatorNoDirectory(path: string, sep: char)
    requires sep !in path
    ensures DirectoryOf(path, sep) == []
    ensures FileName(path, sep) == path
  {
    SplitPiece(path, sep);
  }

  /** A path with a separator is its directory, the separator and its file
      name, and its directory has one piece fewer, so it is strictly shorter. */
  lemma DirectoryAndName(path: string, sep: char)
    requires sep in path
    ensures DirectoryOf(path, sep) + [sep] + FileName(path, sep) == path
    ensures Split(DirectoryOf(path, sep), sep) == Split(path, sep)[..|Split(path, sep)| - 1]
    ensures |DirectoryOf(path, sep)| < |path|
  {
    var parts := Split(path, sep);
    JoinSplit(path, sep);
    JoinLast(parts, sep);
    SplitJoin(parts[..|parts| - 1], sep);
  }

  /** The directory of a child path is the parent it was built from. */
  lemma DirectoryOfChild(dir: string, name: string, sep: char)
    requires sep !in name
    ensures DirectoryOf(dir + [sep] + name, sep) == dir
    ensures FileName(dir + [sep] + name, sep) == name
  {
    SplitChild(dir, name, sep);
    var parts := Split(dir, sep) + [name];
    assert parts[..|parts| - 1] == Split(dir, sep);
    JoinSplit(dir, sep);
  }

  // ---------------------------------------------------------------------
  // Creating the directory

  datatype SaveError =
    /** Directory.CreateDirectory("") throws ArgumentException. */
    | EmptyDirectoryName

  /** SaveAsNPY as written: it always asks for DirectoryOf(path) to be
      created, and creating the empty path is an error. On success, the
      directory created. */
  function SaveDirectoryAsWritten(path: string, sep: char): (r: Result<string, SaveError>)
    ensures r.Failure? <==> DirectoryOf(path, sep) == []
    ensures r.Success? ==> r.value + [sep] + FileName(path, sep) == path
  {
    var dir := DirectoryOf(path, sep);
    if dir == [] then Failure(EmptyDirectoryName)
    else
      DirectoryAndName(path, sep);
      Success(dir)
  }

  /** As written, saving to a bare file name (a path with no separator,
      such as "out.npy") fails before anything is saved. */
  lemma BareFileNameFailsAsWritten(path: string, sep: char)
    requires sep !in path
    ensures SaveDirectoryAsWritten(path, sep) == Failure(EmptyDirectoryName)
  {
    NoSeparatorNoDirectory(path, sep);
  }

  /** The directory SaveAsNPY should create: the directory part of the
      path, or none when the path has no directory part. */
  function SaveDirectory(path: string, sep: char): (dir: Option<string>)
    ensures dir.Some? <==> DirectoryOf(path, sep) != []
    ensures dir.Some? ==> dir.value + [sep] + FileName(path, sep) == path
  {
    var d := DirectoryOf(path, sep);
    if d == [] then None
    else
      DirectoryAndName(path, sep);
      Some(d)
  }

  /** With the correction, a bare file name is saved into the working
      directory, and every other path gets exactly the directory the as-written
      code would have created. */
  lemma SaveDirectoryCorrected(path: string, sep: char)
    ensures sep !in path ==> SaveDirectory(path, sep) == None
    ensures SaveDirectoryAsWritten(path, sep).Success? ==>
      SaveDirectory(path, sep) == Some(SaveDirectoryAsWritten(path, sep).value)
  {
    if sep !in path { NoSeparatorNoDirectory(path, sep); }
  }

  /** The statistics files `Train` writes, <save>/Source/Means and the like,
      get <save>/Source (or <save>/Target) created. */
  lemma StatisticsDirectories(saveDir: string, side: string, file: string, sep: char)
    requires sep !in side && sep !in file
    ensures SaveDirectory(saveDir + [sep] + side + [sep] + file, sep) == Some(saveDir + [sep] + side)
  {
    DirectoryOfChild(saveDir + [sep] + side, file, sep);
  }
}
