/**
  The semantic actions of the grammar's reductions: how each rule builds or
  desugars AST nodes. Rules that pass their only child through unchanged (a
  `top` that is a definition, an extern or a global, a `stmt` that is an
  assignment, block, if, for or expression, a parenthesised expression or
  condition, a `relexp` used as a condition, a non-empty argument list) need no
  function of their own.
 */
module Grammar {
  import opened Options
  import opened Ast

  /**
    The C++ conversion of a `double` literal to `int`: truncation toward zero.
    (Literals too large for `int` are undefined behaviour in C++; the model keeps
    the mathematical value.)
   */
  function TruncateToInt(x: real): (n: int)
    ensures 0.0 <= x ==> n as real <= x < n as real + 1.0
    ensures x < 0.0 ==> n as real - 1.0 < x <= n as real
  {
    if x >= 0.0 then x.Floor else -((-x).Floor)
  }

  // program: %empty | top ";" program -- a right-nested chain of sequence nodes

  function EmptyProgram(): Top {
    Seq(None, None)
  }

  /** `top` is `None` for the empty top-level item. */
  function ProgramItem(top: Option<Top>, rest: Top): Top {
    Seq(top, Some(rest))
  }

  /** definition: "def" proto block -- the prototype of a definition is not emitted on its own. */
  function MakeDefinition(p: Proto, body: Expr): Top {
    Definition(Func(p.(emit := false), body))
  }

  /** external: "extern" proto */
  function MakeExtern(p: Proto): Top {
    Extern(p)
  }

  /** proto: "id" "(" idseq ")" -- prototypes are emitted unless a definition says otherwise. */
  function MakeProto(name: string, params: seq<string>): Proto {
    Proto(name, params, true)
  }

  /** globalvar: "global" "id" */
  function GlobalScalar(name: string): Top {
    GlobalVar(name, 0)
  }

  /** globalvar: "global" "id" "[" "number" "]" */
  function GlobalArray(name: string, n: real): Top {
    GlobalVar(name, TruncateToInt(n))
  }

  // Lists. `idseq`, `stmts`, `optexp`/`explist` are right-recursive and prepend the
  // head to the already-built tail; `vardefs` is left-recursive and appends.

  function Nil<T>(): seq<T> {
    []
  }

  function Single<T>(x: T): seq<T> {
    [x]
  }

  function Prepend<T>(x: T, tail: seq<T>): seq<T> {
    [x] + tail
  }

  function Append<T>(init: seq<T>, x: T): seq<T> {
    init + [x]
  }

  /** if "(" condexp ")" stmt -- no else-branch. */
  function IfThen(c: Expr, s: Expr): Expr {
    If(c, s, None)
  }

  /** if "(" condexp ")" stmt "else" stmt */
  function IfThenElse(c: Expr, s: Expr, t: Expr): Expr {
    If(c, s, Some(t))
  }

  /** condexp "?" exp ":" exp -- both branches always present. */
  function Ternary(c: Expr, t: Expr, f: Expr): Expr {
    If(c, t, Some(f))
  }

  /** for "(" init ";" condexp ";" assignment ")" stmt */
  function ForStmt(init: ForInit, c: Expr, step: Assignment, body: Expr): Expr {
    For(init, c, step, body)
  }

  /** init: binding */
  function InitFromBinding(b: Binding): ForInit {
    InitBinding(b)
  }

  /** init: assignment */
  function InitFromAssignment(a: Assignment): ForInit {
    InitExpr(Assign(a))
  }

  /** assignment: "id" "=" exp */
  function AssignScalar(id: string, e: Expr): Assignment {
    Assignment(id, e, None)
  }

  /** assignment: "id" "[" exp "]" "=" exp */
  function AssignElem(id: string, index: Expr, e: Expr): Assignment {
    Assignment(id, e, Some(index))
  }

  /** assignment: "+" "+" "id" */
  function PreIncrement(id: string): Assignment {
    Assignment(id, Binary('+', IdRef(id), Number(1.0)), None)
  }

  /** assignment: "-" "-" "id" */
  function PreDecrement(id: string): Assignment {
    Assignment(id, Binary('-', IdRef(id), Number(1.0)), None)
  }

  /** block: "{" stmts "}" */
  function BlockOf(stmts: seq<Expr>): Expr {
    Block([], stmts)
  }

  /** block: "{" vardefs ";" stmts "}" */
  function BlockWith(defs: seq<Binding>, stmts: seq<Expr>): Expr {
    Block(defs, stmts)
  }

  /** binding: "var" "id" initexp -- `init` is `None` when there is no "=" exp. */
  function VarScalar(id: string, init: Option<Expr>): Binding {
    Binding(id, init, 0, [])
  }

  /** binding: "var" "id" "[" "number" "]" */
  function VarArray(id: string, n: real): Binding {
    Binding(id, None, TruncateToInt(n), [])
  }

  /** binding: "var" "id" "[" "number" "]" "=" "{" explist "}" */
  function VarArrayInit(id: string, n: real, elems: seq<Expr>): Binding {
    Binding(id, None, TruncateToInt(n), elems)
  }

  /** exp: exp op exp and relexp: exp op exp, for op in + - * / < == (the last tagged '='). */
  function BinOp(op: char, l: Expr, r: Expr): Expr {
    Binary(op, l, r)
  }

  /** exp: "number" */
  function Num(n: real): Expr {
    Number(n)
  }

  /** exp: "-" "number" */
  function NegNumber(n: real): Expr {
    Binary('-', Number(0.0), Number(n))
  }

  /** condexp: relexp "and" condexp */
  function And(l: Expr, r: Expr): Expr {
    Boolean('A', l, Some(r))
  }

  /** condexp: relexp "or" condexp */
  function Or(l: Expr, r: Expr): Expr {
    Boolean('O', l, Some(r))
  }

  /** condexp: "not" condexp */
  function Not(x: Expr): Expr {
    Boolean('N', x, None)
  }

  /** idexp: "id" */
  function IdRef(id: string): Expr {
    Variable(id, None, false)
  }

  /** idexp: "-" "id" */
  function NegId(id: string): Expr {
    Binary('*', IdRef(id), Number(-1.0))
  }

  /** idexp: "id" "(" optexp ")" */
  function CallExp(id: string, args: seq<Expr>): Expr {
    Call(id, args)
  }

  /** idexp: "id" "[" exp "]" */
  function ElemRef(id: string, index: Expr): Expr {
    Variable(id, Some(index), true)
  }

  // How the parser's reductions assemble a list whose items, in source order, are
  // `xs`: a right-recursive rule reduces the innermost (last) item first, a
  // left-recursive one the outermost (first) item first.

  /** `idseq`: empty base case, prepend on each reduction. */
  function ReduceRightFromEmpty<T>(xs: seq<T>): seq<T>
    decreases |xs|
  {
    if |xs| == 0 then Nil() else Prepend(xs[0], ReduceRightFromEmpty(xs[1..]))
  }

  /** `stmts` and `explist`: one-item base case, prepend on each reduction. */
  function ReduceRightFromOne<T>(xs: seq<T>): seq<T>
    requires |xs| > 0
    decreases |xs|
  {
    if |xs| == 1 then Single(xs[0]) else Prepend(xs[0], ReduceRightFromOne(xs[1..]))
  }

  /** `vardefs`: one-item base case, append on each reduction. */
  function ReduceLeftFromOne<T>(xs: seq<T>): seq<T>
    requires |xs| > 0
    decreases |xs|
  {
    if |xs| == 1 then Single(xs[0]) else Append(ReduceLeftFromOne(xs[..|xs| - 1]), xs[|xs| - 1])
  }

  lemma {:induction false} IdSeqKeepsSourceOrder<T>(xs: seq<T>)
    ensures ReduceRightFromEmpty(xs) == xs
    decreases |xs|
  {
    if |xs| > 0 {
      IdSeqKeepsSourceOrder(xs[1..]);
      assert [xs[0]] + xs[1..] == xs;
    }
  }

  lemma {:induction false} RightListKeepsSourceOrder<T>(xs: seq<T>)
    requires |xs| > 0
    ensures ReduceRightFromOne(xs) == xs
    decreases |xs|
  {
    if |xs| > 1 {
      RightListKeepsSourceOrder(xs[1..]);
      assert [xs[0]] + xs[1..] == xs;
    }
  }

  lemma {:induction false} VardefsKeepSourceOrder<T>(xs: seq<T>)
    requires |xs| > 0
    ensures ReduceLeftFromOne(xs) == xs
    decreases |xs|
  {
    if |xs| > 1 {
      VardefsKeepSourceOrder(xs[..|xs| - 1]);
      assert xs[..|xs| - 1] + [xs[|xs| - 1]] == xs;
    }
  }

  /** The program the reductions build from its top-level items in source order. */
  function ProgramOf(items: seq<Option<Top>>): Top
    decreases |items|
  {
    if |items| == 0 then EmptyProgram() else ProgramItem(items[0], ProgramOf(items[1..]))
  }

  /** Reads the top-level items back off a sequence chain. */
  function ProgramItems(t: Top): seq<Option<Top>>
    decreases t
  {
    if t.Seq? && t.rest.Some? then [t.first] + ProgramItems(t.rest.value) else []
  }

  lemma {:induction false} ProgramChainRoundTrip(items: seq<Option<Top>>)
    ensures ProgramItems(ProgramOf(items)) == items
    ensures ProgramOf(items).Seq?
    decreases |items|
  {
    if |items| > 0 {
      ProgramChainRoundTrip(items[1..]);
      assert [items[0]] + items[1..] == items;
    }
  }
}
