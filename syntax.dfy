/**
 * The part of a Python syntax tree that the code analyzer looks at.
 *
 * `ast.parse` builds the tree; this model starts from the tree. Every node
 * kind the analyzer does not special-case is an `Other` node that keeps only
 * its child nodes, because the analyzer only descends into those.
 */
module Syntax {

  datatype Option<+T> = None | Some(value: T)

  /** One `name [as asname]` entry of an import statement. */
  datatype Alias = Alias(name: string, asname: Option<string>)

  datatype Node =
      /** `import a.b, c as d` */
    | Import(names: seq<Alias>)
      /** `from [.]* [module] import names`; `source` is None for `from . import x` */
    | ImportFrom(source: Option<string>, names: seq<Alias>, level: nat)
      /** A call expression; `args` holds the positional and keyword argument expressions. */
    | Call(func: Node, args: seq<Node>)
      /** A bare identifier */
    | Name(id: string)
      /** `value.attr` */
    | Attribute(value: Node, attr: string)
      /** Any other node kind (module, function definition, constant, list, ...) with its child nodes */
    | Other(children: seq<Node>)

  /** The two symbol sets the analyzer fills: imported modules and called names. */
  datatype Symbols = Symbols(imports: set<string>, calls: set<string>)
  {
    function Union(other: Symbols): Symbols
    {
      Symbols(imports + other.imports, calls + other.calls)
    }
  }

  const NoSymbols := Symbols({}, {})
}
