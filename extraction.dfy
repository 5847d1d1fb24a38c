/**
 * What the analyzer collects from a tree, as pure functions.
 *
 * `Analyze` follows the visitor's dispatch: an import statement contributes
 * its modules, a call contributes the name of its callee and is then
 * descended into, and every other node is only descended into. `Subtrees`
 * and `Collect` give an independent account of the same walk: every node
 * of the tree is visited once and contributes what `Own` says.
 */
module Extraction {
  import opened Syntax

  /** The original dotted names of an import's aliases (never the `as` names). */
  function ImportedNames(names: seq<Alias>): set<string>
  {
    set a | a in names :: a.name
  }

  lemma ImportedNamesSnoc(init: seq<Alias>, last: Alias)
    ensures ImportedNames(init + [last]) == ImportedNames(init) + {last.name}
  {
    var all := init + [last];
    forall x | x in ImportedNames(all) ensures x in ImportedNames(init) + {last.name} {
      var a :| a in all && a.name == x;
      if a != last {
        assert a in init;
      }
    }
    forall x | x in ImportedNames(init) ensures x in ImportedNames(all) {
      var a :| a in init && a.name == x;
      assert a in all;
    }
    assert last in all;
  }

  /** Python truthiness of an optional module name: present and non-empty. */
  predicate Truthy(source: Option<string>)
  {
    source.Some? && source.value != ""
  }

  /** The entry a call adds for its callee: the bare name, the trailing attribute, or nothing. */
  function CalleeNames(func: Node): set<string>
  {
    match func
    case Name(id) => {id}
    case Attribute(_, attr) => {attr}
    case _ => {}
  }

  /** What visiting one node adds by itself, before descending into its children. */
  function Own(n: Node): Symbols
  {
    match n
    case Import(names) => Symbols(ImportedNames(names), {})
    case ImportFrom(source, _, _) => Symbols(if Truthy(source) then {source.value} else {}, {})
    case Call(func, _) => Symbols({}, CalleeNames(func))
    case _ => NoSymbols
  }

  /** Everything a complete walk of `n` adds to the two sets. */
  function Analyze(n: Node): Symbols
    decreases n, 1
  {
    Own(n).Union(AnalyzeChildren(n))
  }

  /** What the walk adds below `n`: the generic visit of its child nodes. */
  function AnalyzeChildren(n: Node): Symbols
    decreases n, 0
  {
    match n
    case Call(func, args) => Analyze(func).Union(AnalyzeAll(args))
    case Attribute(value, _) => Analyze(value)
    case Other(children) => AnalyzeAll(children)
    case _ => NoSymbols
  }

  /** What walking the nodes of a list field one after the other adds. */
  function AnalyzeAll(ns: seq<Node>): Symbols
    decreases ns, 2
  {
    if ns == [] then NoSymbols
    else AnalyzeAll(ns[..|ns| - 1]).Union(Analyze(ns[|ns| - 1]))
  }

  /** The nodes a depth-first walk of `n` visits, `n` included. */
  function Subtrees(n: Node): set<Node>
    decreases n, 1
  {
    {n} + ChildSubtrees(n)
  }

  function ChildSubtrees(n: Node): set<Node>
    decreases n, 0
  {
    match n
    case Call(func, args) => Subtrees(func) + SubtreesAll(args)
    case Attribute(value, _) => Subtrees(value)
    case Other(children) => SubtreesAll(children)
    case _ => {}
  }

  function SubtreesAll(ns: seq<Node>): set<Node>
    decreases ns, 2
  {
    if ns == [] then {} else SubtreesAll(ns[..|ns| - 1]) + Subtrees(ns[|ns| - 1])
  }

  /** The union of what each node of `ms` adds by itself. */
  function Collect(ms: set<Node>): Symbols
  {
    Symbols(set m, x | m in ms && x in Own(m).imports :: x,
            set m, x | m in ms && x in Own(m).calls :: x)
  }

  lemma CollectUnion(a: set<Node>, b: set<Node>)
    ensures Collect(a + b) == Collect(a).Union(Collect(b))
  {
  }

  lemma CollectSingle(n: Node)
    ensures Collect({n}) == Own(n)
  {
    assert Collect({n}).imports == Own(n).imports;
    assert Collect({n}).calls == Own(n).calls;
  }

  /**
   * The walk visits every node of the tree and nothing else: what it
   * collects is exactly the union of every visited node's own entries.
   */
  lemma {:induction false} AnalyzeCollectsEveryNode(n: Node)
    ensures Analyze(n) == Collect(Subtrees(n))
    decreases n, 1
  {
    ChildrenCollectEveryNode(n);
    CollectSingle(n);
    CollectUnion({n}, ChildSubtrees(n));
  }

  lemma {:induction false} ChildrenCollectEveryNode(n: Node)
    ensures AnalyzeChildren(n) == Collect(ChildSubtrees(n))
    decreases n, 0
  {
    match n
    case Call(func, args) =>
      AnalyzeCollectsEveryNode(func);
      AllCollectEveryNode(args);
      CollectUnion(Subtrees(func), SubtreesAll(args));
    case Attribute(value, _) =>
      AnalyzeCollectsEveryNode(value);
    case Other(children) =>
      AllCollectEveryNode(children);
    case _ =>
      assert Collect({}) == NoSymbols;
  }

  lemma {:induction false} AllCollectEveryNode(ns: seq<Node>)
    ensures AnalyzeAll(ns) == Collect(SubtreesAll(ns))
    decreases ns, 2
  {
    if ns == [] {
      assert Collect({}) == NoSymbols;
    } else {
      var init, last := ns[..|ns| - 1], ns[|ns| - 1];
      AllCollectEveryNode(init);
      AnalyzeCollectsEveryNode(last);
      CollectUnion(SubtreesAll(init), Subtrees(last));
    }
  }

  /**
   * A module name ends up in the imports set exactly when some visited
   * import statement names it as an original alias name, or some visited
   * from-import has it as its (non-empty) source module.
   */
  lemma ImportEntries(t: Node, x: string)
    ensures x in Analyze(t).imports <==>
      exists m :: m in Subtrees(t) &&
        ((m.Import? && exists a :: a in m.names && a.name == x) ||
         (m.ImportFrom? && m.source == Some(x) && x != ""))
  {
    AnalyzeCollectsEveryNode(t);
    if x in Analyze(t).imports {
      var m :| m in Subtrees(t) && x in Own(m).imports;
      assert m.Import? || m.ImportFrom?;
      if m.Import? {
        var a :| a in m.names && a.name == x;
      }
    }
    if exists m :: m in Subtrees(t) &&
        ((m.Import? && exists a :: a in m.names && a.name == x) ||
         (m.ImportFrom? && m.source == Some(x) && x != "")) {
      var m :| m in Subtrees(t) &&
        ((m.Import? && exists a :: a in m.names && a.name == x) ||
         (m.ImportFrom? && m.source == Some(x) && x != ""));
      assert x in Own(m).imports;
    }
  }

  /**
   * A name ends up in the calls set exactly when some visited call has a
   * callee that is that bare name or an attribute access ending in it.
   */
  lemma CallEntries(t: Node, x: string)
    ensures x in Analyze(t).calls <==>
      exists m :: m in Subtrees(t) && m.Call? &&
        (m.func == Name(x) || (m.func.Attribute? && m.func.attr == x))
  {
    AnalyzeCollectsEveryNode(t);
    if x in Analyze(t).calls {
      var m :| m in Subtrees(t) && x in Own(m).calls;
      assert m.Call?;
    }
    if exists m :: m in Subtrees(t) && m.Call? &&
        (m.func == Name(x) || (m.func.Attribute? && m.func.attr == x)) {
      var m :| m in Subtrees(t) && m.Call? &&
        (m.func == Name(x) || (m.func.Attribute? && m.func.attr == x));
      assert x in Own(m).calls;
    }
  }

  /** A tree without import or call nodes yields two empty sets. */
  lemma NothingToCollect(t: Node)
    requires forall m | m in Subtrees(t) :: !m.Import? && !m.ImportFrom? && !m.Call?
    ensures Analyze(t) == NoSymbols
  {
    AnalyzeCollectsEveryNode(t);
    assert Collect(Subtrees(t)).imports == {};
    assert Collect(Subtrees(t)).calls == {};
  }

  /** Import statements only ever add to the imports set. */
  lemma ImportsAddNoCalls(t: Node)
    requires t.Import? || t.ImportFrom?
    ensures Analyze(t).calls == {}
  {
  }

  /** A tree with no import statements in it (an expression, say) adds no imports. */
  lemma OnlyImportsAddImports(t: Node)
    requires forall m | m in Subtrees(t) :: !m.Import? && !m.ImportFrom?
    ensures Analyze(t).imports == {}
  {
    AnalyzeCollectsEveryNode(t);
    assert Collect(Subtrees(t)).imports == {};
  }

  /** An import statement naming N distinct modules adds exactly N entries. */
  lemma ImportCount(names: seq<Alias>)
    requires forall i, j :: 0 <= i < j < |names| ==> names[i].name != names[j].name
    ensures Analyze(Import(names)).imports == ImportedNames(names)
    ensures |Analyze(Import(names)).imports| == |names|
  {
    DistinctNamesCount(names);
  }

  predicate DistinctNames(names: seq<Alias>)
  {
    forall i, j :: 0 <= i < j < |names| ==> names[i].name != names[j].name
  }

  lemma {:induction false} DistinctNamesCount(names: seq<Alias>)
    requires DistinctNames(names)
    ensures |ImportedNames(names)| == |names|
  {
    if names != [] {
      var init, last := names[..|names| - 1], names[|names| - 1];
      DistinctSnoc(names);
      DistinctNamesCount(init);
      assert names == init + [last];
      ImportedNamesSnoc(init, last);
    }
  }

  /** Dropping the last alias keeps the names distinct, and the last name is new. */
  lemma DistinctSnoc(names: seq<Alias>)
    requires DistinctNames(names) && names != []
    ensures DistinctNames(names[..|names| - 1])
    ensures names[|names| - 1].name !in ImportedNames(names[..|names| - 1])
  {
    var init, last := names[..|names| - 1], names[|names| - 1];
    forall i, j | 0 <= i < j < |init| ensures init[i].name != init[j].name {
      assert init[i] == names[i] && init[j] == names[j];
    }
    forall a | a in init ensures a.name != last.name {
      var i :| 0 <= i < |init| && init[i] == a;
      assert names[i] == a;
    }
  }

  /** `from . import x`: a from-import without a module adds nothing at all. */
  lemma RelativeImportAddsNothing(names: seq<Alias>, level: nat)
    ensures Analyze(ImportFrom(None, names, level)) == NoSymbols
  {
  }

  /** `a.b.c()` adds only `c`: never the receiver names `a` or `b`. */
  lemma TrailingAttributeOnly(a: string, b: string, c: string)
    ensures Analyze(Call(Attribute(Attribute(Name(a), b), c), [])) == Symbols({}, {c})
  {
    assert Analyze(Name(a)) == NoSymbols;
    assert Analyze(Attribute(Name(a), b)) == NoSymbols;
    assert Analyze(Attribute(Attribute(Name(a), b), c)) == NoSymbols;
    assert AnalyzeAll([]) == NoSymbols;
  }

  /** `f()()` adds exactly `f`: the outer call has no name, its callee is still walked. */
  lemma CallOfCallAddsInnerName(f: string)
    ensures Analyze(Call(Call(Name(f), []), [])) == Symbols({}, {f})
  {
    assert AnalyzeAll([]) == NoSymbols;
    assert Analyze(Name(f)) == NoSymbols;
    assert Analyze(Call(Name(f), [])) == Symbols({}, {f});
  }

  /**
   * The tree of
   *   import os
   *   from collections import OrderedDict
   *   def f():
   *       os.path.join("a", "b")
   *       len([1, 2])
   * yields imports {os, collections} and calls {join, len}.
   */
  lemma ModuleExample()
    ensures
      var join := Call(Attribute(Attribute(Name("os"), "path"), "join"), [Other([]), Other([])]);
      var len := Call(Name("len"), [Other([Other([]), Other([])])]);
      var def := Other([Other([join]), Other([len])]);
      var tree := Other([Import([Alias("os", None)]),
                         ImportFrom(Some("collections"), [Alias("OrderedDict", None)], 0),
                         def]);
      Analyze(tree) == Symbols({"os", "collections"}, {"join", "len"})
  {
    var leaf := Other([]);
    AnalyzeOther([]);
    AnalyzeAllCons(leaf, [leaf]);
    AnalyzeAllCons(leaf, []);
    assert [leaf] + [leaf] == [leaf, leaf] && [leaf] + [] == [leaf];
    assert AnalyzeAll([leaf, leaf]) == NoSymbols;
    var join := Call(Attribute(Attribute(Name("os"), "path"), "join"), [leaf, leaf]);
    assert Analyze(Attribute(Attribute(Name("os"), "path"), "join")) == NoSymbols by {
      assert Analyze(Name("os")) == NoSymbols;
    }
    assert Analyze(join) == Symbols({}, {"join"});
    var list := Other([leaf, leaf]);
    AnalyzeOther([leaf, leaf]);
    AnalyzeAllCons(list, []);
    assert [list] + [] == [list];
    assert Analyze(list) == NoSymbols;
    assert AnalyzeAll([list]) == NoSymbols;
    var len := Call(Name("len"), [list]);
    assert Analyze(Name("len")) == NoSymbols;
    assert Analyze(len) == Symbols({}, {"len"});
    var def := Other([Other([join]), Other([len])]);
    AnalyzeOther([join]);
    AnalyzeAllCons(join, []);
    assert [join] + [] == [join];
    AnalyzeOther([len]);
    AnalyzeAllCons(len, []);
    assert [len] + [] == [len];
    AnalyzeOther([Other([join]), Other([len])]);
    AnalyzeAllCons(Other([join]), [Other([len])]);
    AnalyzeAllCons(Other([len]), []);
    assert [Other([join])] + [Other([len])] == [Other([join]), Other([len])];
    assert [Other([len])] + [] == [Other([len])];
    assert Analyze(def) == Symbols({}, {"join", "len"});
    var imp := Import([Alias("os", None)]);
    assert Analyze(imp) == Symbols({"os"}, {});
    var from := ImportFrom(Some("collections"), [Alias("OrderedDict", None)], 0);
    assert Analyze(from) == Symbols({"collections"}, {});
    AnalyzeOther([imp, from, def]);
    AnalyzeAllCons(imp, [from, def]);
    AnalyzeAllCons(from, [def]);
    AnalyzeAllCons(def, []);
    assert [imp] + [from, def] == [imp, from, def];
    assert [from] + [def] == [from, def];
    assert [def] + [] == [def];
  }

  lemma AnalyzeOther(cs: seq<Node>)
    ensures Analyze(Other(cs)) == AnalyzeAll(cs)
  {
  }

  /** Walking a list is walking its head, then the rest. */
  lemma {:induction false} AnalyzeAllCons(n: Node, ns: seq<Node>)
    ensures AnalyzeAll([n] + ns) == Analyze(n).Union(AnalyzeAll(ns))
  {
    var all := [n] + ns;
    if ns == [] {
      assert all[..|all| - 1] == [];
    } else {
      assert all[..|all| - 1] == [n] + ns[..|ns| - 1];
      AnalyzeAllCons(n, ns[..|ns| - 1]);
    }
  }

  /**
   * A name as the parser produces it: non-empty, without a comma, and not
   * the keyword `None` (which is never an identifier or a module name).
   */
  predicate IsSymbol(s: string)
  {
    s != "" && ',' !in s && s != "None"
  }

  predicate NamesWellFormed(m: Node)
  {
    match m
    case Import(names) => forall a | a in names :: IsSymbol(a.name)
    case ImportFrom(source, _, _) => source.Some? ==> IsSymbol(source.value)
    case Name(id) => IsSymbol(id)
    case Attribute(_, attr) => IsSymbol(attr)
    case _ => true
  }

  /** Every name in the tree is one the parser could produce. */
  predicate WellFormed(t: Node)
  {
    forall m | m in Subtrees(t) :: NamesWellFormed(m)
  }

  /** Both sets hold only names that occur in the tree, so none is empty or holds a comma. */
  lemma WellFormedSymbols(t: Node)
    requires WellFormed(t)
    ensures forall x | x in Analyze(t).imports :: IsSymbol(x)
    ensures forall x | x in Analyze(t).calls :: IsSymbol(x)
  {
    forall x | x in Analyze(t).imports ensures IsSymbol(x) {
      ImportEntries(t, x);
    }
    forall x | x in Analyze(t).calls ensures IsSymbol(x) {
      CallEntries(t, x);
      var m :| m in Subtrees(t) && m.Call? && (m.func == Name(x) || (m.func.Attribute? && m.func.attr == x));
      assert m.func in Subtrees(t) by {
        assert m.func in Subtrees(m.func);
        assert m.func in Subtrees(m);
        SubtreesClosed(t, m);
      }
    }
  }

  /** A subtree's subtrees are subtrees too. */
  lemma {:induction false} SubtreesClosed(t: Node, m: Node)
    requires m in Subtrees(t)
    ensures Subtrees(m) <= Subtrees(t)
    decreases t, 1
  {
    if m != t {
      ChildSubtreesClosed(t, m);
    }
  }

  lemma {:induction false} ChildSubtreesClosed(t: Node, m: Node)
    requires m in ChildSubtrees(t)
    ensures Subtrees(m) <= ChildSubtrees(t)
    decreases t, 0
  {
    match t
    case Call(func, args) =>
      if m in Subtrees(func) { SubtreesClosed(func, m); } else { AllSubtreesClosed(args, m); }
    case Attribute(value, _) =>
      SubtreesClosed(value, m);
    case Other(children) =>
      AllSubtreesClosed(children, m);
  }

  lemma {:induction false} AllSubtreesClosed(ns: seq<Node>, m: Node)
    requires m in SubtreesAll(ns)
    ensures Subtrees(m) <= SubtreesAll(ns)
    decreases ns, 2
  {
    var init, last := ns[..|ns| - 1], ns[|ns| - 1];
    if m in SubtreesAll(init) {
      AllSubtreesClosed(init, m);
    } else {
      SubtreesClosed(last, m);
    }
  }
}
