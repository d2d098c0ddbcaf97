/**
  The abstract syntax tree of the Kaleidoscope-with-arrays language, as built by the
  grammar actions and consumed by the code generator. Every child pointer that the
  source allows to be null is an `Option`; every other child is always present.
 */
module Ast {
  import opened Options

  /** Expression nodes (the `ExprAST` subclasses). */
  datatype Expr =
    | Number(val: real)
      // `isArray` selects element access; `index` is only read when it is set
    | Variable(name: string, index: Option<Expr>, isArray: bool)
    | Binary(op: char, lhs: Expr, rhs: Expr)
      // `not` carries no right operand
    | Boolean(op: char, lhs: Expr, right: Option<Expr>)
    | Call(callee: string, args: seq<Expr>)
    | If(cond: Expr, thenExp: Expr, elseExp: Option<Expr>)
    | Block(defs: seq<Binding>, stmts: seq<Expr>)
    | Assign(assignment: Assignment)
    | For(init: ForInit, cond: Expr, step: Assignment, body: Expr)

  /** `name = val` or `name[index] = val` (`VarAssignAST`). */
  datatype Assignment = Assignment(name: string, val: Expr, index: Option<Expr>)

  /**
    A local variable definition (`VarBindingAST`). A positive `size` makes it an
    array whose elements take `elems` in order, the rest being zero; otherwise it is
    a scalar initialised by `init`.
   */
  datatype Binding = Binding(name: string, init: Option<Expr>, size: int, elems: seq<Expr>)

  /**
    The initialiser of a for-loop. The source keeps it as an untyped root node and
    tells a binding from an assignment by a dynamic cast at lowering time; an
    expression that is not an assignment is representable and is rejected then.
   */
  datatype ForInit = InitBinding(binding: Binding) | InitExpr(expr: Expr)

  /** A function signature; `emit` says whether the declaration is surfaced on its own. */
  datatype Proto = Proto(name: string, params: seq<string>, emit: bool)

  datatype Func = Func(proto: Proto, body: Expr)

  /** Top-level nodes (`RootAST` subclasses that are not expressions). */
  datatype Top =
    | Seq(first: Option<Top>, rest: Option<Top>)
    | Definition(func: Func)
    | Extern(proto: Proto)
    | GlobalVar(name: string, size: int)

  /** The names a list of bindings introduces, in declaration order. */
  function Names(defs: seq<Binding>): (ns: seq<string>)
    ensures |ns| == |defs|
    ensures forall i :: 0 <= i < |defs| ==> ns[i] == defs[i].name
  {
    if |defs| == 0 then [] else [defs[0].name] + Names(defs[1..])
  }

  /** No two bindings of the list share a name. */
  predicate DistinctNames(defs: seq<Binding>) {
    forall i, j :: 0 <= i < j < |defs| ==> defs[i].name != defs[j].name
  }
}
