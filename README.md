# Code analyzer: a Dafny model

The repository's analyzer reads Python files and, for each one, reports the
modules it imports and the names of the functions it calls. It parses the
file into a syntax tree and walks the tree once with a `CodeAnalyzer`
visitor. The visitor keeps two sets as fields and adds to them in place.
Each set is then shown as its elements, sorted and joined by `", "`, with
`None` standing in for an empty set. A folder is analyzed file by file:
its `.py` files are taken in order of name, and files that could not be
read or parsed are dropped from the table.

This project models that core in Dafny and proves what it does.

- `syntax.dfy` (module `Syntax`): the tree. `Import(names)`,
  `ImportFrom(source, names, level)`, `Call(func, args)`, `Name(id)`,
  `Attribute(value, attr)`, and `Other(children)` for every other node kind.
- `extraction.dfy` (module `Extraction`): what a walk collects, as pure
  functions (`Own`, `Analyze`, `AnalyzeChildren`, `AnalyzeAll`), and an
  independent account of the walk (`Subtrees`, `Collect`): every node is
  visited and adds its own entries. Lemmas give the rule for each node
  kind, and worked examples.
- `analyzer.dfy` (module `Analyzer`): the class `CodeAnalyzer`. Its fields
  `imports` and `functionCalls` are updated in place by `Visit`,
  `VisitImport` (a loop over the aliases), `VisitImportFrom`, `VisitCall`,
  `GenericVisit` and `VisitList` (the inherited visit-children default).
  Each method is proved to add exactly what `Analyze` says.
- `ordering.dfy` (module `StringOrder`): Python's string order and its
  laws. `SortedElements` models `sorted` of a set, and `Sort` models
  `sorted` of a list.
- `report.dfy` (module `Report`): `", ".join`, the `"None"` placeholder,
  one file's row (`AnalyzeCode`), and the round trip from a cell back to
  the sorted names.
- `batch.dfy` (module `Batch`): the folder batch. It covers the `.py`
  filter, the sort, the per-file analysis and dropping failed results.

Reading and parsing a file is an input to the model. `AnalyzeCode` takes
`Option<Node>`, where `None` means reading or parsing failed. `AnalyzeFolder`
takes a function from file name to `Option<Node>`.

The code keeps the two sets as instance state that
the visit methods mutate. The model follows the code, with a class whose
methods change its fields. It pairs the class with the pure function
`Analyze`, and the `ensures` clauses are what connect the two.

`wrap_text` tests the joined text, not the set. A set holding only the empty
string, or only the string `None`, would therefore print as `None`. The model
keeps that behaviour. `Report.PlaceholderOnlyWhenEmpty` states the
placeholder's meaning for names a parser can produce (non-empty, no comma,
not the keyword `None`).

## Model

| member | source | states |
|---|---|---|
| `Analyzer.CodeAnalyzer.constructor` | code_analyzer.py:8-10 | the imports set and the calls set both start empty |
| `Analyzer.CodeAnalyzer.Visit` | code_analyzer.py:7-26 | visiting a node adds exactly `Analyze(node)` to the two sets; the sets only grow |
| `Analyzer.CodeAnalyzer.VisitImport` | code_analyzer.py:12-14 | adds the original name of every alias (never the `as` name) to the imports set; the calls set is unchanged |
| `Analyzer.CodeAnalyzer.VisitImportFrom` | code_analyzer.py:16-18 | adds the source module only when it is present and non-empty; the calls set is unchanged |
| `Analyzer.CodeAnalyzer.VisitCall` | code_analyzer.py:20-26 | adds the bare callee name or the trailing attribute, nothing for other callees, then everything below the call |
| `Analyzer.CodeAnalyzer.GenericVisit` | code_analyzer.py:26 | the inherited default visits every child node, so the sets gain what the children's walks collect |
| `Analyzer.CodeAnalyzer.VisitList` | code_analyzer.py:26 | visiting a list field's nodes in order adds the union of what each walk collects |
| `Analyzer.Extract` | code_analyzer.py:41-42 | a fresh analyzer that visits a tree ends with exactly the two sets of `Analyze(tree)`, so the result is the same on every run |
| `Extraction.Analyze` | code_analyzer.py:7-26 | the walk itself: a node's own entries joined with its children's walks; its behaviour is stated by `AnalyzeCollectsEveryNode`, `ImportEntries` and `CallEntries` |
| `Extraction.AnalyzeChildren` | code_analyzer.py:26 | what the inherited generic visit collects from a node's child nodes (a call's callee and arguments, an attribute's value, any other node's children); `ChildrenCollectEveryNode` states it |
| `Extraction.AnalyzeAll` | code_analyzer.py:26 | what walking a list field's nodes in order collects, the union of each node's walk; `AllCollectEveryNode` and `AnalyzeAllCons` state it |
| `Extraction.Own` | code_analyzer.py:12-24 | the entries one node adds by itself (import alias names, a truthy from-import module, the callee name of a call); used by `Collect` in `AnalyzeCollectsEveryNode` |
| `Extraction.ImportedNames` | code_analyzer.py:13-14 | the original names of an import's aliases; `ImportCount` states its size for distinct names |
| `Extraction.Truthy` | code_analyzer.py:17 | `if node.module:`, a module that is present and non-empty; `RelativeImportAddsNothing` covers the absent case |
| `Extraction.CalleeNames` | code_analyzer.py:21-24 | the bare name or the trailing attribute of a callee, nothing for other callees; `TrailingAttributeOnly` and `CallOfCallAddsInnerName` state it on examples |
| `Extraction.AnalyzeCollectsEveryNode` | code_analyzer.py:7-26 | what the walk collects equals the union of the entries each node of the tree adds on its own: every node is visited |
| `Extraction.ImportEntries` | code_analyzer.py:12-18 | a name is in the imports set exactly when some import in the tree lists it as an original alias name, or some from-import has it as its non-empty module |
| `Extraction.CallEntries` | code_analyzer.py:20-26 | a name is in the calls set exactly when some call in the tree has that bare name as its callee, or an attribute callee ending in it |
| `Extraction.NothingToCollect` | code_analyzer.py:8-26 | a tree with no import, from-import or call nodes yields two empty sets |
| `Extraction.ImportsAddNoCalls` | code_analyzer.py:12-18 | import statements add nothing to the calls set |
| `Extraction.OnlyImportsAddImports` | code_analyzer.py:12-26 | a tree with no import statements in it adds nothing to the imports set |
| `Extraction.ImportCount` | code_analyzer.py:12-14 | an import of N aliases with distinct original names adds exactly those names, N entries |
| `Extraction.RelativeImportAddsNothing` | code_analyzer.py:16-18 | `from . import x` (no module) adds nothing to either set |
| `Extraction.TrailingAttributeOnly` | code_analyzer.py:23-24 | `a.b.c()` adds only `c` to the calls set, never `a` or `b`, and no imports |
| `Extraction.CallOfCallAddsInnerName` | code_analyzer.py:20-26 | `f()()` adds exactly `f`: the outer call adds nothing, and its callee is still walked |
| `Extraction.ModuleExample` | code_analyzer.py:12-26 | a module importing `os` and `collections` and calling `os.path.join(...)` and `len(...)` in a function yields imports {os, collections} and calls {join, len} |
| `Extraction.WellFormedSymbols` | code_analyzer.py:12-24 | both sets hold only names that occur in the tree, so a tree of parser names gives non-empty, comma-free entries that are never `None` |
| `StringOrder.Less` | code_analyzer.py:46 | Python's `<` on strings: the first differing code point decides, and a proper prefix comes first; `LessTotal`, `LessTransitive` and `LessAsymmetric` state it is a strict total order |
| `StringOrder.LessTotal` | code_analyzer.py:46 | Python's string order (one code point at a time, a proper prefix first) orders any two different strings |
| `StringOrder.LessTransitive` | code_analyzer.py:46 | the string order is transitive |
| `StringOrder.LessAsymmetric` | code_analyzer.py:46 | the string order is asymmetric |
| `StringOrder.SortedElements` | code_analyzer.py:46-47 | `sorted` of a set holds each element exactly once, in strictly increasing order |
| `StringOrder.Sort` | code_analyzer.py:52-54 | `sorted` of a list is sorted and a permutation of the list |
| `StringOrder.SortedUnique` | code_analyzer.py:52-54 | two sorted lists with the same elements are equal, so the sorted order is determined by the files alone |
| `StringOrder.LessCommonPrefix` | code_analyzer.py:53 | putting the same folder path in front of two names does not change how they compare |
| `StringOrder.Prefixed` | code_analyzer.py:53 | `[os.path.join(folder_path, f) for f in ...]`, the folder path (ending in a separator) in front of each name, one entry per name; `PrefixedCounts` and `SortPrefixed` state its behaviour |
| `StringOrder.SortPrefixed` | code_analyzer.py:52-53 | sorting names that all carry the same folder path in front gives the sorted names with that path in front |
| `Report.Join` | code_analyzer.py:46-47 | `", ".join`: consecutive names separated by `", "`; `SplitJoin` states that it can be undone and `JoinStartsWithFirst` that it starts with the first name |
| `Report.WrapText` | code_analyzer.py:28-30 | a cell is never empty, and it is `None` exactly when the text is empty or is itself `None` |
| `Report.Column` | code_analyzer.py:46-47 | one cell: the sorted names joined and then wrapped; `ColumnOfNothing`, `ColumnRoundTrip` and `PlaceholderOnlyWhenEmpty` state its contents |
| `Report.AnalysisRow` | code_analyzer.py:32-48 | the result of `analyze_code`: no row on a read or parse failure, else the file's name and its two cells; `RowContents` states its contents |
| `Report.SplitJoin` | code_analyzer.py:46-47 | splitting a `", "`-joined list of comma-free names at `", "` gives the list back |
| `Report.ColumnOfNothing` | code_analyzer.py:30 | an empty set is shown as `None` |
| `Report.ColumnRoundTrip` | code_analyzer.py:46-47 | a non-empty set of names is shown as its sorted elements joined by `", "`, and the cell splits back into exactly them |
| `Report.PlaceholderOnlyWhenEmpty` | code_analyzer.py:28-30 | for parser names, a cell is `None` exactly when its set is empty |
| `Report.AnalyzeCode` | code_analyzer.py:32-48 | no row when reading or parsing failed; otherwise the row for the file holds the two rendered sets that a fresh walk collects |
| `Report.RowContents` | code_analyzer.py:41-48 | a parsed file's row is filed under its own name, and each cell is `None` exactly when its set is empty, otherwise it splits back into the sorted set |
| `Batch.IsPythonFile` | code_analyzer.py:53 | `f.endswith(".py")`: the name is at least three characters long and its last three are `.py` |
| `Batch.PythonFilesIn` | code_analyzer.py:53 | the listing's `.py` names in listing order; `PythonFilesInCounts` states what it keeps |
| `Batch.Outcomes` | code_analyzer.py:60 | each file's `analyze_code` result, in file order; `OutcomesFiled` states each entry |
| `Batch.Successes` | code_analyzer.py:61 | `[r for r in results if r]`: never longer than the results; `SuccessesAppend`, `SuccessesComeFromResults` and `SuccessesKeepEverySuccess` state which survive and in what order |
| `Batch.FolderReport` | code_analyzer.py:50-61 | the batch's rows, or none when there is no Python file; `NoBatchWithoutPythonFiles` and `FolderRowsBelong`, `FolderRowsComplete`, `FolderRowsSorted` state its contents |
| `Batch.JoinedPathsSortByName` | code_analyzer.py:52-54 | sorting the joined paths of the `.py` files gives the batch's sorted names with the folder path in front, so the batch runs in order of file name |
| `Batch.PythonFilesInCounts` | code_analyzer.py:53 | the `.py` filter keeps every file whose name ends in `.py`, as often as it is listed, and nothing else |
| `Batch.PythonFiles` | code_analyzer.py:52-54 | the files a batch analyzes are sorted, and they are exactly the listed names ending in `.py` |
| `Batch.AnalyzeFiles` | code_analyzer.py:60 | analyzing the files one after the other yields, at each file's position, that file's outcome |
| `Batch.AnalyzeFolder` | code_analyzer.py:50-61 | no batch when there is no Python file; otherwise the rows are the successful per-file results for the sorted Python files, in order |
| `Batch.NoBatchWithoutPythonFiles` | code_analyzer.py:56-58 | a folder yields no batch exactly when no listed name ends in `.py` |
| `Batch.SuccessesAppend` | code_analyzer.py:61 | dropping failed results distributes over concatenation, so the remaining results keep their relative order |
| `Batch.SuccessesOfOne` | code_analyzer.py:61 | a single result survives exactly when it is not a failure |
| `Batch.SuccessesComeFromResults` | code_analyzer.py:61 | every surviving row is the result of some file |
| `Batch.SuccessesKeepEverySuccess` | code_analyzer.py:61 | every successful result survives the filter |
| `Batch.SuccessesSorted` | code_analyzer.py:52-61 | results for files in sorted order survive as rows sorted by file name |
| `Batch.OutcomesFiled` | code_analyzer.py:60 | each file's result is a row under its own name exactly when reading and parsing it succeeded |
| `Batch.FolderRowsBelong` | code_analyzer.py:52-61 | each row of a batch is the row of a listed `.py` file that was read and parsed |
| `Batch.FolderRowsComplete` | code_analyzer.py:52-61 | every listed `.py` file that was read and parsed has a row, even when other files of the batch failed |
| `Batch.FolderRowsSorted` | code_analyzer.py:52-61 | a batch's rows are ordered by file name |
| `Batch.FolderOrderExample` | code_analyzer.py:52-54 | listing `b`, a non-Python file, `a`, `c` (with a < b < c, all `.py`) gives the order a, b, c |

## Left out

- `ast.parse` and Python's grammar: the model starts from a built tree. This is a library call.
- Opening and reading the file, the blanket `except Exception`, and the printed diagnostic: a failure is the value `None`. This is I/O.
- `Report.WrapText`: does not model `textwrap.fill`'s line breaking at 30 columns. Only the empty text becoming `None` and the unwrapped joined text are modelled, because line wrapping is library code. `textwrap.fill`'s whitespace normalisation (dropping leading and trailing whitespace) is not modelled either. It cannot matter for names joined by `", "`, because parser names contain no whitespace.
- `os.listdir`, `os.path.join`, `os.path.basename`, `os.path.isfile`, `os.path.isdir`: a file is its name within the folder, and the listing is an input. `os.path.join(folder, f)` is the folder path, ending in a separator, followed by `f`, and `Batch.JoinedPathsSortByName` shows that sorting the joined paths gives the sorted names with the folder path in front. `os.path.basename` of such a path is taken to be `f`, because listed names contain no separator. This is filesystem I/O.
- `argparse` and `main`, including the single-file `.py` check: this is command-line plumbing.
- `tabulate` and every `print`: this is presentation.
- The `ctx` marker nodes (`Load`, `Store`, `Del`, which have no children), constant values and the identifiers of definitions are not modelled, because the walk adds nothing for them. A keyword argument's value is one of the call's `args`, because the walk treats it the same way.
- The tree is finite and acyclic by construction. A very deep tree exhausting Python's recursion limit is not modelled.
