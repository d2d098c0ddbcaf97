/**
  Expression lowering (`ExprAST::codegen` and friends in driver.cpp): each node is
  translated into instructions appended to the state's log, and yields an operand
  for its parent, the source's null result, or a crash where the source
  dereferences a null pointer.
 */
module Codegen {
  import opened Options
  import opened Ast
  import opened Ir

  /** The instruction a binary operator tag selects; `None` for an unsupported tag. */
  function BinaryOpcode(op: char): Option<BinOpcode> {
    match op
    case '+' => Some(FAdd)
    case '-' => Some(FSub)
    case '*' => Some(FMul)
    case '/' => Some(FDiv)
    case '<' => Some(FCmpULT)
    case '=' => Some(FCmpUEQ)
    case _ => None
  }

  function Lower(e: Expr, st: State): (r: Step<Value>)
    decreases e, 2
    ensures Extends(st, r.st)
  {
    match e
    case Number(x) => Step(Ok(Const(x)), st)
    case Variable(_, _, _) => LowerVariable(e, st)
    case Binary(_, _, _) => LowerBinary(e, st)
    case Boolean(_, _, _) => LowerBoolean(e, st)
    case Call(_, _) => LowerCall(e, st)
    case If(_, _, _) => LowerIf(e, st)
    case Block(_, _) => LowerBlock(e, st)
    case Assign(a) => LowerAssign(a, st)
    case For(_, _, _, _) => LowerFor(e, st)
  }

  /**
    A load from the storage the name resolves to, or from the element `index`
    selects. Reading an element of scalar storage asks the scalar type for its
    element type, which the source dereferences as if it were an array's: a crash.
   */
  function LowerVariable(e: Expr, st: State): (r: Step<Value>)
    requires e.Variable?
    decreases e, 1
    ensures Extends(st, r.st)
  {
    if !e.isArray then
      match Resolve(st, e.name)
      case None => Step(NoValue, st)
      case Some(loc) => Step(Ok(Reg(st.next)), Emit(Bump(st), Load(st.next, loc)))
    else if e.index.None? then Step(Crash, st)
    else
      var si := Lower(e.index.value, st);
      if !si.out.Ok? then Abort(si)
      else
        var k := si.st.next;
        var st1 := Emit(Bump(si.st), ToInt(k, si.out.v));
        match Resolve(st1, e.name)
        case None => Step(NoValue, st1)
        case Some(loc) =>
          if StorageShape(st1, loc) == Some(Scalar) then Step(Crash, st1)
          else Step(Ok(Reg(st1.next)), Emit(Bump(st1), LoadElem(st1.next, loc, Reg(k))))
  }

  /** Both operands are lowered before either is checked. */
  function LowerBinary(e: Expr, st: State): (r: Step<Value>)
    requires e.Binary?
    decreases e, 1
    ensures Extends(st, r.st)
  {
    var sl := Lower(e.lhs, st);
    if sl.out.Crash? then Abort(sl)
    else
      var sr := Lower(e.rhs, sl.st);
      if sr.out.Crash? then Abort(sr)
      else if !sl.out.Ok? || !sr.out.Ok? then Step(NoValue, sr.st)
      else match BinaryOpcode(e.op)
        case None => Step(NoValue, sr.st)
        case Some(opc) =>
          Step(Ok(Reg(sr.st.next)), Emit(Bump(sr.st), Bin(sr.st.next, opc, sl.out.v, sr.out.v)))
  }

  /**
    `and`, `or` and `not`. The right operand, when present, is lowered even when the
    left one failed; `and` and `or` with no right value hand a null operand to the
    builder, which the model records as a crash.
   */
  function LowerBoolean(e: Expr, st: State): (r: Step<Value>)
    requires e.Boolean?
    decreases e, 1
    ensures Extends(st, r.st)
  {
    var sl := Lower(e.lhs, st);
    if sl.out.Crash? then Abort(sl)
    else
      var sr := if e.right.Some? then Lower(e.right.value, sl.st) else Step(NoValue, sl.st);
      if sr.out.Crash? then Abort(sr)
      else if !sl.out.Ok? then Step(NoValue, sr.st)
      else
        var k := sr.st.next;
        if e.op == 'A' then
          if sr.out.Ok? then Step(Ok(Reg(k)), Emit(Bump(sr.st), And(k, sl.out.v, sr.out.v)))
          else Step(Crash, sr.st)
        else if e.op == 'O' then
          if sr.out.Ok? then Step(Ok(Reg(k)), Emit(Bump(sr.st), Or(k, sl.out.v, sr.out.v)))
          else Step(Crash, sr.st)
        else if e.op == 'N' then Step(Ok(Reg(k)), Emit(Bump(sr.st), Not(k, sl.out.v)))
        else Step(NoValue, sr.st)
  }

  /** The callee and its arity are checked before any argument is lowered. */
  function LowerCall(e: Expr, st: State): (r: Step<Value>)
    requires e.Call?
    decreases e, 1
    ensures Extends(st, r.st)
  {
    if e.callee !in st.funcs then Step(NoValue, st)
    else if |st.funcs[e.callee].params| != |e.args| then Step(NoValue, st)
    else
      var sa := LowerArgs(e.args, st);
      if !sa.out.Ok? then Abort(sa)
      else Step(Ok(Reg(sa.st.next)), Emit(Bump(sa.st), CallFn(sa.st.next, e.callee, sa.out.v)))
  }

  /** Arguments left to right; the first one that fails aborts the rest. */
  function LowerArgs(args: seq<Expr>, st: State): (r: Step<seq<Value>>)
    decreases args, 0
    ensures Extends(st, r.st)
    ensures r.out.Ok? ==> |r.out.v| == |args|
  {
    if |args| == 0 then Step(Ok([]), st)
    else
      var s0 := Lower(args[0], st);
      if !s0.out.Ok? then Abort(s0)
      else
        var rest := LowerArgs(args[1..], s0.st);
        if !rest.out.Ok? then Abort(rest)
        else Step(Ok([s0.out.v] + rest.out.v), rest.st)
  }

  /**
    Condition, then the two branches in their own blocks, then a phi in the merge
    block over the values leaving the then-exit and else-exit blocks.
   */
  function LowerIf(e: Expr, st: State): (r: Step<Value>)
    requires e.If?
    decreases e, 1
    ensures Extends(st, r.st)
  {
    var sc := Lower(e.cond, st);
    if !sc.out.Ok? then Abort(sc) else LowerBranches(e, sc.out.v, sc.st)
  }

  /**
    The rest of a conditional once its condition has lowered to `cond`: three fresh
    blocks, the branch on `cond`, each branch in its block ending in a jump to the
    merge block, and the phi there. A missing else-branch contributes the constant
    0.0.
   */
  function LowerBranches(e: Expr, cond: Value, st: State): (r: Step<Value>)
    requires e.If?
    decreases e, 0
    ensures Extends(st, r.st)
  {
    var thenB := st.next;
    var elseB := thenB + 1;
    var mergeB := thenB + 2;
    var st1 := Emit(st.(next := thenB + 3), CondBr(cond, thenB, elseB));
    var stv := Lower(e.thenExp, EnterBlock(st1, thenB));
    if !stv.out.Ok? then Abort(stv)
    else
      var st2 := Emit(stv.st, Br(mergeB));
      var thenExit := st2.cursor;
      var st3 := EnterBlock(st2, elseB);
      var sf := if e.elseExp.Some? then Lower(e.elseExp.value, st3) else Step(Ok(Const(0.0)), st3);
      if !sf.out.Ok? then Abort(sf)
      else
        var st4 := Emit(sf.st, Br(mergeB));
        var elseExit := st4.cursor;
        var st5 := EnterBlock(st4, mergeB);
        var k := st5.next;
        var phi := Phi(k, [Incoming(stv.out.v, thenExit), Incoming(sf.out.v, elseExit)]);
        Step(Ok(Reg(k)), Emit(Bump(st5), phi))
  }

  /**
    Bindings in order, each installed in the environment as soon as it is lowered,
    then the statements; on success the saved handles are written back in
    declaration order and the value is the last statement's. The early exits leave
    the environment as they find it.
   */
  function LowerBlock(e: Expr, st: State): (r: Step<Value>)
    requires e.Block?
    decreases e, 1
    ensures Extends(st, r.st)
  {
    var sd := LowerDefs(e.defs, st);
    if !sd.out.Ok? then Abort(sd)
    else
      var ss := LowerStmts(e.stmts, sd.st);
      if !ss.out.Ok? then Abort(ss)
      else
        var st' := ss.st.(env := Restore(ss.st.env, Names(e.defs), sd.out.v));
        if ss.out.v.None? then Step(NoValue, st') else Step(Ok(ss.out.v.value), st')
  }

  /**
    Lowers the bindings of a block and installs each one; yields the handles they
    shadowed, read just after each binding was lowered.
   */
  function LowerDefs(defs: seq<Binding>, st: State): (r: Step<seq<Option<nat>>>)
    decreases defs, 0
    ensures Extends(st, r.st)
    ensures r.out.Ok? ==> |r.out.v| == |defs|
  {
    if |defs| == 0 then Step(Ok([]), st)
    else
      var sb := LowerBinding(defs[0], st);
      if !sb.out.Ok? then Abort(sb)
      else
        var saved := Lookup(sb.st.env, defs[0].name);
        var st1 := sb.st.(env := sb.st.env[defs[0].name := sb.out.v]);
        var rest := LowerDefs(defs[1..], st1);
        if !rest.out.Ok? then Abort(rest)
        else Step(Ok([saved] + rest.out.v), rest.st)
  }

  /** The statements in order; `Some` of the last one's value, `None` for an empty list. */
  function LowerStmts(stmts: seq<Expr>, st: State): (r: Step<Option<Value>>)
    decreases stmts, 0
    ensures Extends(st, r.st)
    ensures r.out.Ok? ==> (r.out.v.Some? <==> |stmts| > 0)
  {
    if |stmts| == 0 then Step(Ok(None), st)
    else
      var s0 := Lower(stmts[0], st);
      if !s0.out.Ok? then Abort(s0)
      else
        var rest := LowerStmts(stmts[1..], s0.st);
        if !rest.out.Ok? then Abort(rest)
        else if rest.out.v.None? then Step(Ok(Some(s0.out.v)), rest.st)
        else rest
  }

  /**
    Allocates the binding's slot, then stores its initial value(s); yields the slot.
    The environment is not touched here.
   */
  function LowerBinding(b: Binding, st: State): (r: Step<nat>)
    decreases b, 1
    ensures Extends(st, r.st)
    ensures r.out.Ok? ==> r.out.v == st.next
  {
    var slot := st.next;
    if b.size > 0 then
      var st1 := Emit(Bump(st), Alloca(slot, Array(b.size)));
      var se := LowerElems(b, slot, 0, st1);
      if !se.out.Ok? then Abort(se) else Step(Ok(slot), se.st)
    else
      var st1 := Emit(Bump(st), Alloca(slot, Scalar));
      if b.init.None? then Step(Crash, st1)
      else
        var sv := Lower(b.init.value, st1);
        if !sv.out.Ok? then Abort(sv)
        else Step(Ok(slot), Emit(sv.st, Store(sv.out.v, Slot(slot))))
  }

  /**
    Stores elements `i`, `i + 1`, ... of an array binding into `slot`: the matching
    initializer while the list lasts, 0.0 after it. Yields the stored values.
   */
  function LowerElems(b: Binding, slot: nat, i: nat, st: State): (r: Step<seq<Value>>)
    requires i <= b.size
    decreases b, 0, b.size - i
    ensures Extends(st, r.st)
    ensures r.out.Ok? ==> |r.out.v| == b.size - i
    ensures r.out.Ok? ==> forall k :: 0 <= k < |r.out.v| && i + k >= |b.elems| ==> r.out.v[k] == Const(0.0)
  {
    if i == b.size then Step(Ok([]), st)
    else
      var sv := if i < |b.elems| then Lower(b.elems[i], st) else Step(Ok(Const(0.0)), st);
      if !sv.out.Ok? then Abort(sv)
      else
        var st1 := Emit(sv.st, StoreElem(sv.out.v, Slot(slot), Int(i)));
        var rest := LowerElems(b, slot, i + 1, st1);
        if !rest.out.Ok? then Abort(rest)
        else Step(Ok([sv.out.v] + rest.out.v), rest.st)
  }

  /**
    The value first, then the index, then the name is resolved; the stored value is
    the result.
   */
  function LowerAssign(a: Assignment, st: State): (r: Step<Value>)
    decreases a, 1
    ensures Extends(st, r.st)
  {
    var sv := Lower(a.val, st);
    if !sv.out.Ok? then Abort(sv)
    else if a.index.Some? then
      var si := Lower(a.index.value, sv.st);
      if !si.out.Ok? then Abort(si)
      else
        var k := si.st.next;
        var st1 := Emit(Bump(si.st), ToInt(k, si.out.v));
        match Resolve(st1, a.name)
        case None => Step(NoValue, st1)
        case Some(loc) => Step(Ok(sv.out.v), Emit(st1, StoreElem(sv.out.v, loc, Reg(k))))
    else
      match Resolve(sv.st, a.name)
      case None => Step(NoValue, sv.st)
      case Some(loc) => Step(Ok(sv.out.v), Emit(sv.st, Store(sv.out.v, loc)))
  }

  /** The four blocks of a for-loop. */
  datatype LoopBlocks = LoopBlocks(init: nat, cond: nat, body: nat, after: nat)

  /**
    Branches into a fresh init block and lowers the initializer there: a binding is
    installed in the environment, remembering the handle it shadows; an assignment
    is lowered as such; anything else fails.
   */
  function LowerFor(e: Expr, st: State): (r: Step<Value>)
    requires e.For?
    decreases e, 1
    ensures Extends(st, r.st)
  {
    var initB := st.next;
    var st1 := Emit(Bump(st), Br(initB));
    var blocks := LoopBlocks(initB, st1.next, st1.next + 1, st1.next + 2);
    var st2 := EnterBlock(st1.(next := st1.next + 3), initB);
    match e.init
    case InitBinding(b) =>
      var sb := LowerBinding(b, st2);
      if !sb.out.Ok? then Abort(sb)
      else
        var shadowed := Lookup(sb.st.env, b.name);
        LowerLoop(e, blocks, sb.st.(env := sb.st.env[b.name := sb.out.v]), b.name, shadowed)
    case InitExpr(x) =>
      if !x.Assign? then Step(NoValue, st2)
      else
        var sa := LowerAssign(x.assignment, st2);
        if !sa.out.Ok? then Abort(sa) else LowerLoop(e, blocks, sa.st, "", None)
  }

  /**
    The rest of a for-loop once its initializer is lowered: the condition in the
    cond block, then the body followed by the increment in the loop block, then the
    cursor moves to the after block. `shadowed` is written back under `name` only
    when it is a real handle. The loop's value is the constant 0.0.
   */
  function LowerLoop(e: Expr, blocks: LoopBlocks, st: State, name: string, shadowed: Option<nat>): (r: Step<Value>)
    requires e.For?
    decreases e, 0
    ensures Extends(st, r.st)
  {
    var sc := Lower(e.cond, EnterBlock(Emit(st, Br(blocks.cond)), blocks.cond));
    if !sc.out.Ok? then Abort(sc)
    else
      var st1 := Emit(sc.st, CondBr(sc.out.v, blocks.body, blocks.after));
      var sb := Lower(e.body, EnterBlock(st1, blocks.body));
      if !sb.out.Ok? then Abort(sb)
      else
        var ss := LowerAssign(e.step, sb.st);
        if !ss.out.Ok? then Abort(ss)
        else
          var st2 := EnterBlock(Emit(ss.st, Br(blocks.cond)), blocks.after);
          var env' := if shadowed.Some? then st2.env[name := shadowed.value] else st2.env;
          Step(Ok(Const(0.0)), st2.(env := env'))
  }
}
