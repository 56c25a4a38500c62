/**
 * The expression tree that the host parser (`compiler.parse(source, "eval")`)
 * hands to the walker. One constructor per node class the walker has a
 * `visit*` method for; every other node class is `Other`, carrying its class
 * name.
 */
module Ast {

  /** The payload of a `Const` node: a number or a string literal. */
  datatype Literal =
    | IntLit(i: int)
    | FloatLit(r: real)
    | StrLit(s: string)

  datatype Node =
    | Expression(node: Node)                    // the root of an "eval"-mode parse
    | Name(name: string)                        // a bare identifier
    | Const(value: Literal)
    | UnarySub(expr: Node)                      // prefix minus
    | Dict(items: seq<(Node, Node)>)            // key/value pairs, in source order
    | Tuple(nodes: seq<Node>)
    | List(nodes: seq<Node>)
    | Getattr(expr: Node, attrname: string)     // `expr.attrname`
    | CallFunc(node: Node, args: seq<Node>)     // `node(args...)`
    | Other(kind: string)                       // any other node class, e.g. "Add"
}
