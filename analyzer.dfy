/**
 * The tree walker: an object holding the two sets it fills in place while
 * it visits a tree depth first. Each visit method is proved to add exactly
 * what the pure `Analyze` family of functions says.
 */
module Analyzer {
  import opened Syntax
  import opened Extraction

  class CodeAnalyzer {
    var imports: set<string>
    var functionCalls: set<string>

    /** Both sets start empty. */
    constructor ()
      ensures imports == {} && functionCalls == {}
    {
      imports := {};
      functionCalls := {};
    }

    /** Dispatch on the node kind; kinds without a visit method of their own get the generic visit. */
    method Visit(node: Node)
      modifies this
      ensures imports == old(imports) + Analyze(node).imports
      ensures functionCalls == old(functionCalls) + Analyze(node).calls
      decreases node, 2
    {
      match node
      case Import(_) => VisitImport(node);
      case ImportFrom(_, _, _) => VisitImportFrom(node);
      case Call(_, _) => VisitCall(node);
      case _ => GenericVisit(node);
    }

    /** Adds the original name of every alias; the calls set is untouched and nothing below is visited. */
    method VisitImport(node: Node)
      requires node.Import?
      modifies this
      ensures imports == old(imports) + ImportedNames(node.names)
      ensures functionCalls == old(functionCalls)
      decreases node, 1
    {
      var names := node.names;
      for i := 0 to |names|
        invariant imports == old(imports) + ImportedNames(names[..i])
        invariant functionCalls == old(functionCalls)
      {
        assert names[..i + 1] == names[..i] + [names[i]];
        ImportedNamesSnoc(names[..i], names[i]);
        imports := imports + {names[i].name};
      }
      assert names[..|names|] == names;
    }

    /** Adds the source module when it is present and non-empty; nothing below is visited. */
    method VisitImportFrom(node: Node)
      requires node.ImportFrom?
      modifies this
      ensures imports == old(imports) + (if Truthy(node.source) then {node.source.value} else {})
      ensures functionCalls == old(functionCalls)
      decreases node, 1
    {
      if node.source.Some? && node.source.value != "" {
        imports := imports + {node.source.value};
      }
    }

    /** Adds the callee's bare name or trailing attribute, then visits the callee and the arguments. */
    method VisitCall(node: Node)
      requires node.Call?
      modifies this
      ensures imports == old(imports) + Analyze(node).imports
      ensures functionCalls == old(functionCalls) + CalleeNames(node.func) + AnalyzeChildren(node).calls
      decreases node, 1
    {
      if node.func.Name? {
        functionCalls := functionCalls + {node.func.id};
      } else if node.func.Attribute? {
        functionCalls := functionCalls + {node.func.attr};
      }
      GenericVisit(node);
    }

    /** Visits every child node, field by field. */
    method GenericVisit(node: Node)
      modifies this
      ensures imports == old(imports) + AnalyzeChildren(node).imports
      ensures functionCalls == old(functionCalls) + AnalyzeChildren(node).calls
      decreases node, 0
    {
      match node
      case Call(func, args) =>
        Visit(func);
        VisitList(args);
      case Attribute(value, _) =>
        Visit(value);
      case Other(children) =>
        VisitList(children);
      case _ =>
    }

    /** Visits the nodes of one list field in order. */
    method VisitList(nodes: seq<Node>)
      modifies this
      ensures imports == old(imports) + AnalyzeAll(nodes).imports
      ensures functionCalls == old(functionCalls) + AnalyzeAll(nodes).calls
      decreases nodes, 3
    {
      for i := 0 to |nodes|
        invariant imports == old(imports) + AnalyzeAll(nodes[..i]).imports
        invariant functionCalls == old(functionCalls) + AnalyzeAll(nodes[..i]).calls
      {
        assert nodes[..i + 1][..i] == nodes[..i];
        Visit(nodes[i]);
      }
      assert nodes[..|nodes|] == nodes;
    }
  }

  /** A fresh analyzer walking `tree` ends with exactly the two sets `Analyze` describes. */
  method Extract(tree: Node) returns (imports: set<string>, calls: set<string>)
    ensures Symbols(imports, calls) == Analyze(tree)
  {
    var analyzer := new CodeAnalyzer();
    analyzer.Visit(tree);
    imports, calls := analyzer.imports, analyzer.functionCalls;
  }
}
