/**
 * The Sass tree as the option-setting pass sees it: nodes of a closed set of
 * kinds, each with its ordered children, and the script expression objects
 * (`Sass::Script::Node`) that some kinds embed. Objects are told apart by an
 * identity, because setting options is an update of the object itself.
 */
module SassTree {
  import opened Wrappers

  type ObjId = nat

  /** An embedded script expression; only its identity matters here. */
  datatype Expr = Expr(id: ObjId)

  /** A piece of a selector or property name: plain text or an interpolated script. */
  datatype Fragment = Text(text: string) | Script(expr: Expr)

  /** A declared argument of a function or mixin: its variable and optional default value. */
  datatype Arg = Arg(name: Expr, defaultValue: Option<Expr>)

  /** A keyword argument of a mixin call: the keyword (a plain string) and its value. */
  datatype Keyword = Keyword(key: string, value: Expr)

  datatype Node = Node(id: ObjId, kind: Kind, children: seq<Node>)

  /**
   * The node kinds the option-setting pass has a handler for, with the
   * expressions they embed, and `Other` for every kind it has none for.
   * An `If` with no `expr` is a plain `@else`; `elseNode` is the next link of
   * the `@if`/`@else` chain, which is not one of the node's children.
   */
  datatype Kind =
    | Debug(expr: Expr)
    | Each(list: Expr)
    | Extend(selector: seq<Fragment>)
    | For(from: Expr, to: Expr)
    | Function(args: seq<Arg>)
    | If(cond: Option<Expr>, elseNode: Option<Node>)
    | MixinDef(params: seq<Arg>)
    | Mixin(positional: seq<Expr>, keywords: seq<Keyword>)
    | Prop(name: seq<Fragment>, value: Expr)
    | Return(expr: Expr)
    | Rule(rule: seq<Fragment>)
    | Variable(expr: Expr)
    | Warn(expr: Expr)
    | While(expr: Expr)
    | Other
}
