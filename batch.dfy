/**
 * Analyzing a folder: the Python files of a directory listing, sorted by
 * name, are analyzed one after the other, and the files whose reading or
 * parsing failed are dropped from the rows.
 *
 * A file is identified by its name inside the folder; reading and parsing
 * the file with that name is the parameter `parse`.
 */
module Batch {
  import opened Syntax
  import opened StringOrder
  import opened Report

  /** `f.endswith(".py")` */
  predicate IsPythonFile(f: string)
  {
    |f| >= 3 && f[|f| - 3..] == ".py"
  }

  /** `[f for f in listing if f.endswith(".py")]` */
  function PythonFilesIn(listing: seq<string>): seq<string>
  {
    if listing == [] then []
    else (if IsPythonFile(listing[0]) then [listing[0]] else []) + PythonFilesIn(listing[1..])
  }

  /** The filter keeps each Python file as often as it is listed, and nothing else. */
  lemma {:induction false} PythonFilesInCounts(listing: seq<string>)
    ensures forall f :: multiset(PythonFilesIn(listing))[f] == if IsPythonFile(f) then multiset(listing)[f] else 0
  {
    if listing != [] {
      PythonFilesInCounts(listing[1..]);
      assert listing == [listing[0]] + listing[1..];
    }
  }

  /** The files the folder batch analyzes, in the order it analyzes them. */
  function PythonFiles(listing: seq<string>): (r: seq<string>)
    ensures Sorted(r)
    ensures forall f :: f in r <==> f in listing && IsPythonFile(f)
    ensures multiset(r) == multiset(PythonFilesIn(listing))
  {
    var r := Sort(PythonFilesIn(listing));
    PythonFilesInCounts(listing);
    assert forall f :: f in r <==> f in multiset(r);
    assert forall f :: f in listing <==> f in multiset(listing);
    r
  }

  /**
   * The batch sorts the joined paths `os.path.join(folder, f)`, that is `dir + f`
   * for the folder's path `dir` ending in a separator. Their order is the order
   * of the bare names, so the batch's files are `PythonFiles` with `dir` in front.
   */
  lemma JoinedPathsSortByName(dir: string, listing: seq<string>)
    ensures Sort(Prefixed(dir, PythonFilesIn(listing))) == Prefixed(dir, PythonFiles(listing))
  {
    SortPrefixed(dir, PythonFilesIn(listing));
  }

  /** `[analyze_code(file) for file in files]`: the analysis outcome of each file, in order. */
  function Outcomes(files: seq<string>, parse: string -> Option<Node>): seq<Option<Row>>
  {
    seq(|files|, k requires 0 <= k < |files| => AnalysisRow(files[k], parse(files[k])))
  }

  /** A sequence holding each file's outcome at the file's position is the outcomes of the files. */
  lemma OutcomesPointwise(files: seq<string>, parse: string -> Option<Node>, results: seq<Option<Row>>)
    requires |results| == |files|
    requires forall k | 0 <= k < |files| :: results[k] == AnalysisRow(files[k], parse(files[k]))
    ensures results == Outcomes(files, parse)
  {
  }

  /** `[r for r in results if r]`: the successful outcomes, in order. */
  function Successes<T>(results: seq<Option<T>>): (r: seq<T>)
    ensures |r| <= |results|
  {
    if results == [] then []
    else (if results[0].Some? then [results[0].value] else []) + Successes(results[1..])
  }

  /** Dropping failures distributes over concatenation, so the survivors keep their relative order. */
  lemma {:induction false} SuccessesAppend<T>(a: seq<Option<T>>, b: seq<Option<T>>)
    ensures Successes(a + b) == Successes(a) + Successes(b)
  {
    if a == [] {
      assert a + b == b;
    } else {
      assert (a + b)[0] == a[0] && (a + b)[1..] == a[1..] + b;
      SuccessesAppend(a[1..], b);
    }
  }

  lemma SuccessesOfOne<T>(x: Option<T>)
    ensures Successes([x]) == if x.Some? then [x.value] else []
  {
    assert [x][1..] == [];
  }

  /** The rows of a folder, or None when it holds no Python file. */
  function FolderReport(listing: seq<string>, parse: string -> Option<Node>): Option<seq<Row>>
  {
    var files := PythonFiles(listing);
    if files == [] then None else Some(Successes(Outcomes(files, parse)))
  }

  /** `[analyze_code(file) for file in files]`, one file after the other. */
  method AnalyzeFiles(files: seq<string>, parse: string -> Option<Node>) returns (results: seq<Option<Row>>)
    ensures results == Outcomes(files, parse)
  {
    results := [];
    for i := 0 to |files|
      invariant |results| == i
      invariant forall k | 0 <= k < i :: results[k] == AnalysisRow(files[k], parse(files[k]))
    {
      var result := AnalyzeCode(files[i], parse(files[i]));
      results := results + [result];
    }
    OutcomesPointwise(files, parse, results);
  }

  /** Analyzes the Python files of a folder listing. */
  method AnalyzeFolder(listing: seq<string>, parse: string -> Option<Node>) returns (report: Option<seq<Row>>)
    ensures report == FolderReport(listing, parse)
  {
    var files := PythonFiles(listing);
    if files == [] {
      return None;
    }
    var results := AnalyzeFiles(files, parse);
    report := Some(Successes(results));
  }

  /** There is no batch exactly when the listing holds no Python file. */
  lemma NoBatchWithoutPythonFiles(listing: seq<string>, parse: string -> Option<Node>)
    ensures FolderReport(listing, parse).None? <==> forall f | f in listing :: !IsPythonFile(f)
  {
    var files := PythonFiles(listing);
    if files != [] {
      assert files[0] in files;
    }
  }

  /** Each surviving row is the outcome of some file. */
  lemma {:induction false} SuccessesComeFromResults<T>(results: seq<Option<T>>)
    ensures forall x | x in Successes(results) :: exists k :: 0 <= k < |results| && results[k] == Some(x)
  {
    if results != [] {
      SuccessesComeFromResults(results[1..]);
      forall x | x in Successes(results) ensures exists k :: 0 <= k < |results| && results[k] == Some(x) {
        if x !in Successes(results[1..]) {
          assert results[0] == Some(x);
        } else {
          var k :| 0 <= k < |results| - 1 && results[1..][k] == Some(x);
          assert results[k + 1] == Some(x);
        }
      }
    }
  }

  /** Every successful outcome survives. */
  lemma {:induction false} SuccessesKeepEverySuccess<T>(results: seq<Option<T>>)
    ensures forall k | 0 <= k < |results| && results[k].Some? :: results[k].value in Successes(results)
  {
    if results != [] {
      SuccessesKeepEverySuccess(results[1..]);
      forall k | 0 <= k < |results| && results[k].Some? ensures results[k].value in Successes(results) {
        if k > 0 {
          assert results[1..][k - 1] == results[k];
        }
      }
    }
  }

  predicate SortedByFile(rows: seq<Row>)
  {
    forall i, j | 0 <= i < j < |rows| :: LessEq(rows[i].file, rows[j].file)
  }

  /** Outcomes of files in sorted order survive as rows sorted by file name. */
  lemma {:induction false} SuccessesSorted(files: seq<string>, results: seq<Option<Row>>)
    requires |results| == |files| && Sorted(files)
    requires forall k | 0 <= k < |files| :: results[k].Some? ==> results[k].value.file == files[k]
    ensures SortedByFile(Successes(results))
  {
    if files != [] {
      var rest := Successes(results[1..]);
      assert Sorted(files[1..]);
      SuccessesSorted(files[1..], results[1..]);
      var rows := Successes(results);
      if results[0].Some? {
        assert rows == [results[0].value] + rest;
        SuccessesComeFromResults(results[1..]);
        forall j | 0 <= j < |rest| ensures LessEq(files[0], rest[j].file) {
          assert rest[j] in rest;
          var k :| 0 <= k < |files| - 1 && results[1..][k] == Some(rest[j]);
          assert files[k + 1] == rest[j].file;
        }
        forall i, j | 0 <= i < j < |rows| ensures LessEq(rows[i].file, rows[j].file) {
          assert rows[j] == rest[j - 1];
          if i == 0 {
            assert rows[i].file == files[0];
            assert LessEq(files[0], rest[j - 1].file);
          } else {
            assert rows[i] == rest[i - 1];
            assert LessEq(rest[i - 1].file, rest[j - 1].file);
          }
        }
      } else {
        assert rows == rest;
      }
    }
  }

  /** A file's outcome is a row filed under its own name exactly when reading and parsing it succeeded. */
  lemma OutcomesFiled(files: seq<string>, parse: string -> Option<Node>)
    ensures var results := Outcomes(files, parse);
      && |results| == |files|
      && (forall k | 0 <= k < |files| :: results[k].Some? <==> parse(files[k]).Some?)
      && (forall k | 0 <= k < |files| :: results[k].Some? ==> results[k].value.file == files[k])
  {
  }

  /** Each row of a folder is the row of one of its Python files whose analysis succeeded. */
  lemma FolderRowsBelong(listing: seq<string>, parse: string -> Option<Node>)
    requires FolderReport(listing, parse).Some?
    ensures forall row: Row | row in FolderReport(listing, parse).value ::
      && row.file in listing && IsPythonFile(row.file)
      && parse(row.file).Some? && AnalysisRow(row.file, parse(row.file)) == Some(row)
  {
    var files := PythonFiles(listing);
    var results := Outcomes(files, parse);
    OutcomesFiled(files, parse);
    SuccessesComeFromResults(results);
    forall row: Row | row in Successes(results)
      ensures row.file in listing && IsPythonFile(row.file)
      ensures parse(row.file).Some? && AnalysisRow(row.file, parse(row.file)) == Some(row)
    {
      var k :| 0 <= k < |files| && results[k] == Some(row);
      assert files[k] in files;
    }
  }

  /** Every Python file of the folder whose analysis succeeded has a row. */
  lemma FolderRowsComplete(listing: seq<string>, parse: string -> Option<Node>)
    requires FolderReport(listing, parse).Some?
    ensures forall f | f in listing && IsPythonFile(f) && parse(f).Some? ::
      exists row: Row | row in FolderReport(listing, parse).value :: row.file == f
  {
    var files := PythonFiles(listing);
    var results := Outcomes(files, parse);
    OutcomesFiled(files, parse);
    SuccessesKeepEverySuccess(results);
    forall f | f in listing && IsPythonFile(f) && parse(f).Some?
      ensures exists row: Row | row in Successes(results) :: row.file == f
    {
      var k :| 0 <= k < |files| && files[k] == f;
      assert results[k].value in Successes(results);
    }
  }

  /** A folder's rows are ordered by file name. */
  lemma FolderRowsSorted(listing: seq<string>, parse: string -> Option<Node>)
    requires FolderReport(listing, parse).Some?
    ensures SortedByFile(FolderReport(listing, parse).value)
  {
    var files := PythonFiles(listing);
    OutcomesFiled(files, parse);
    SuccessesSorted(files, Outcomes(files, parse));
    assert FolderReport(listing, parse).value == Successes(Outcomes(files, parse));
  }

  /**
   * Python files listed as b, x, a, c, where a < b < c and x is not a
   * Python file, are analyzed in the order a, b, c.
   */
  lemma FolderOrderExample(a: string, b: string, c: string, x: string)
    requires IsPythonFile(a) && IsPythonFile(b) && IsPythonFile(c) && !IsPythonFile(x)
    requires Less(a, b) && Less(b, c)
    ensures PythonFiles([b, x, a, c]) == [a, b, c]
  {
    ExampleSorted(a, b, c);
    ExampleFilter(a, b, c, x);
    var r := PythonFiles([b, x, a, c]);
    ExamplePermutation(r, a, b, c);
    SortedUnique(r, [a, b, c]);
  }

  lemma ExampleSorted(a: string, b: string, c: string)
    requires Less(a, b) && Less(b, c)
    ensures Sorted([a, b, c])
  {
    LessTransitive(a, b, c);
  }

  lemma ExamplePermutation(r: seq<string>, a: string, b: string, c: string)
    requires multiset(r) == multiset([b, a, c])
    ensures multiset(r) == multiset([a, b, c])
  {
    assert multiset([b, a, c]) == multiset{b, a, c} == multiset{a, b, c} == multiset([a, b, c]);
  }

  lemma ExampleFilter(a: string, b: string, c: string, x: string)
    requires IsPythonFile(a) && IsPythonFile(b) && IsPythonFile(c) && !IsPythonFile(x)
    ensures PythonFilesIn([b, x, a, c]) == [b, a, c]
  {
    assert PythonFilesIn([c]) == [c] by {
      assert [c][1..] == [];
    }
    assert PythonFilesIn([a, c]) == [a, c] by {
      assert [a, c][1..] == [c];
    }
    assert PythonFilesIn([x, a, c]) == [a, c] by {
      assert [x, a, c][1..] == [a, c];
    }
    assert [b, x, a, c][1..] == [x, a, c];
  }
}
