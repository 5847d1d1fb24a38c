/**
 * Turning the analyzer's two sets into table cells, and the row for a
 * single file.
 */
module Report {
  import opened Syntax
  import opened Extraction
  import opened Analyzer
  import opened StringOrder

  // ----- one column: ", ".join(sorted(names)) with the "None" placeholder -----

  /** `", ".join(xs)` */
  function Join(xs: seq<string>): string
  {
    if xs == [] then ""
    else if |xs| == 1 then xs[0]
    else xs[0] + ", " + Join(xs[1..])
  }

  /** `s.split(", ")`, the inverse of `Join` for names without commas. */
  function Split(s: string): seq<string>
  {
    SplitFrom(s, "")
  }

  /** Splits `s` at every `", "`, with `field` already read as the start of the first piece. */
  function SplitFrom(s: string, field: string): seq<string>
    decreases |s|
  {
    if s == [] then [field]
    else if |s| >= 2 && s[0] == ',' && s[1] == ' ' then [field] + SplitFrom(s[2..], "")
    else SplitFrom(s[1..], field + [s[0]])
  }

  /** The terminal-display step: an empty text shows as the placeholder "None". */
  function WrapText(text: string): (r: string)
    ensures r != ""
    ensures r == "None" <==> text == "" || text == "None"
  {
    if text == "" then "None" else text
  }

  /** The cell for one set of names. */
  function Column(names: set<string>): string
  {
    WrapText(Join(SortedElements(names)))
  }

  lemma {:induction false} SplitFromPlain(x: string, rest: string, field: string)
    requires ',' !in x
    ensures SplitFrom(x + rest, field) == SplitFrom(rest, field + x)
    decreases |x|
  {
    if x == [] {
      assert x + rest == rest && field + x == field;
    } else {
      assert (x + rest)[0] == x[0] && (x + rest)[1..] == x[1..] + rest;
      SplitFromPlain(x[1..], rest, field + [x[0]]);
      assert field + [x[0]] + x[1..] == field + x;
    }
  }

  /** Splitting a joined list of comma-free names gives the names back. */
  lemma {:induction false} SplitJoin(xs: seq<string>)
    requires xs != []
    requires forall x | x in xs :: ',' !in x
    ensures Split(Join(xs)) == xs
  {
    if |xs| == 1 {
      SplitFromPlain(xs[0], "", "");
      assert xs[0] + "" == xs[0] && "" + xs[0] == xs[0];
    } else {
      var rest := Join(xs[1..]);
      assert Join(xs) == xs[0] + (", " + rest);
      SplitFromPlain(xs[0], ", " + rest, "");
      assert "" + xs[0] == xs[0];
      assert (", " + rest)[2..] == rest;
      SplitJoin(xs[1..]);
      assert xs == [xs[0]] + xs[1..];
    }
  }

  /** A joined list starts with its first element. */
  lemma JoinStartsWithFirst(xs: seq<string>)
    requires xs != []
    ensures |Join(xs)| >= |xs[0]|
    ensures Join(xs)[..|xs[0]|] == xs[0]
  {
    if |xs| > 1 {
      assert Join(xs) == xs[0] + (", " + Join(xs[1..]));
    }
  }

  /** An empty set is shown as the placeholder. */
  lemma ColumnOfNothing()
    ensures Column({}) == "None"
  {
  }

  /**
   * A non-empty set of names is shown as its elements in sorted order
   * joined by ", ", and the cell can be split back into exactly them.
   */
  lemma ColumnRoundTrip(names: set<string>)
    requires names != {}
    requires forall x | x in names :: IsSymbol(x)
    ensures Column(names) == Join(SortedElements(names))
    ensures Split(Column(names)) == SortedElements(names)
  {
    var sorted := SortedElements(names);
    assert sorted[0] in names;
    JoinStartsWithFirst(sorted);
    SplitJoin(sorted);
  }

  // ----- one file -----

  /** One table row: the file's name and its two cells. */
  datatype Row = Row(file: string, imports: string, calls: string)

  /** The row for a file whose reading and parsing gave `parsed`; None when that failed. */
  function AnalysisRow(file: string, parsed: Option<Node>): Option<Row>
  {
    match parsed
    case None => None
    case Some(tree) =>
      var symbols := Analyze(tree);
      Some(Row(file, Column(symbols.imports), Column(symbols.calls)))
  }

  /** Analyzes one file: walks its tree with a fresh analyzer and renders the two sets. */
  method AnalyzeCode(file: string, parsed: Option<Node>) returns (row: Option<Row>)
    ensures row == AnalysisRow(file, parsed)
  {
    if parsed.None? {
      return None;
    }
    var imports, calls := Extract(parsed.value);
    row := Some(Row(file, Column(imports), Column(calls)));
  }

  /**
   * A parsed file gets a row under its own name whose cells read back as the
   * sorted module names and the sorted call names, or "None" where a set is empty.
   */
  lemma RowContents(file: string, tree: Node)
    requires WellFormed(tree)
    ensures var row := AnalysisRow(file, Some(tree)).value;
      && row.file == file
      && (Analyze(tree).imports == {} <==> row.imports == "None")
      && (Analyze(tree).imports != {} ==> Split(row.imports) == SortedElements(Analyze(tree).imports))
      && (Analyze(tree).calls == {} <==> row.calls == "None")
      && (Analyze(tree).calls != {} ==> Split(row.calls) == SortedElements(Analyze(tree).calls))
  {
    var symbols := Analyze(tree);
    WellFormedSymbols(tree);
    PlaceholderOnlyWhenEmpty(symbols.imports);
    PlaceholderOnlyWhenEmpty(symbols.calls);
    if symbols.imports != {} {
      ColumnRoundTrip(symbols.imports);
    }
    if symbols.calls != {} {
      ColumnRoundTrip(symbols.calls);
    }
  }

  /** A set of parser names is shown as "None" exactly when it is empty. */
  lemma PlaceholderOnlyWhenEmpty(names: set<string>)
    requires forall x | x in names :: IsSymbol(x)
    ensures Column(names) == "None" <==> names == {}
  {
    if names != {} {
      var sorted := SortedElements(names);
      assert sorted[0] in names;
      ColumnRoundTrip(names);
      SplitPlaceholder();
    }
  }

  /** The placeholder splits into itself alone. */
  lemma SplitPlaceholder()
    ensures Split("None") == ["None"]
  {
    SplitJoin(["None"]);
    assert Join(["None"]) == "None";
  }
}
