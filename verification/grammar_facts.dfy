/**
  What the grammar's desugarings mean once lowered: the increment and decrement
  statements, the negative literal and negated name, the if without else, an
  uninitialised or array binding, the no-emit mark of a definition, and a whole
  program as a sequence chain.
 */
module GrammarFacts {
  import opened Options
  import opened Ast
  import opened Ir
  import opened Codegen
  import opened TopLevel
  import opened Grammar

  /** `x op c` for a name `x` and a literal `c`: a load of `x`, then the operation. */
  lemma {:induction false} NameOpConstant(id: string, op: char, opc: BinOpcode, c: real, st: State)
    requires BinaryOpcode(op) == Some(opc)
    ensures Lower(Binary(op, IdRef(id), Number(c)), st) ==
      match Resolve(st, id)
      case Some(loc) =>
        Step(Ok(Reg(st.next + 1)),
             st.(next := st.next + 2, code := st.code + [Load(st.next, loc), Bin(st.next + 1, opc, Reg(st.next), Const(c))]))
      case None => Step(NoValue, st)
  {
    var e := Binary(op, IdRef(id), Number(c));
    var sl := Lower(IdRef(id), st);
    assert sl == LowerVariable(IdRef(id), st);
    assert Lower(e, st) == LowerBinary(e, st);
    assert Lower(Number(c), sl.st) == Step(Ok(Const(c)), sl.st);
    match Resolve(st, id)
    case Some(loc) =>
      assert sl == Step(Ok(Reg(st.next)), Emit(Bump(st), Load(st.next, loc)));
    case None =>
      assert sl == Step(NoValue, st);
  }

  /** The assignment `x = x op 1.0` that both step statements build. */
  lemma {:induction false} StepByOne(id: string, op: char, opc: BinOpcode, st: State)
    requires BinaryOpcode(op) == Some(opc)
    ensures var r := Lower(Assign(Assignment(id, Binary(op, IdRef(id), Number(1.0)), None)), st);
      match Resolve(st, id)
      case Some(loc) =>
        && r.out == Ok(Reg(st.next + 1))
        && r.st.code == st.code + [Load(st.next, loc), Bin(st.next + 1, opc, Reg(st.next), Const(1.0)), Store(Reg(st.next + 1), loc)]
        && r.st.env == st.env
      case None => r.out == NoValue && r.st == st
  {
    var e := Binary(op, IdRef(id), Number(1.0));
    NameOpConstant(id, op, opc, 1.0, st);
    var sv := Lower(e, st);
    assert Lower(Assign(Assignment(id, e, None)), st) == LowerAssign(Assignment(id, e, None), st);
    if sv.out.Ok? {
      assert Resolve(sv.st, id) == Resolve(st, id);
    }
  }

  /**
    `++x` and `--x` load the storage `x` resolves to, add or subtract 1.0, and store
    the result back to the same storage; the statement's value is the new value.
    An unknown name gives no value and emits nothing.
   */
  lemma StepStatementsReadModifyWrite(id: string, st: State)
    ensures var inc := Lower(Assign(PreIncrement(id)), st);
            var dec := Lower(Assign(PreDecrement(id)), st);
      match Resolve(st, id)
      case Some(loc) =>
        && inc.out == dec.out == Ok(Reg(st.next + 1))
        && inc.st.code == st.code + [Load(st.next, loc), Bin(st.next + 1, FAdd, Reg(st.next), Const(1.0)), Store(Reg(st.next + 1), loc)]
        && dec.st.code == st.code + [Load(st.next, loc), Bin(st.next + 1, FSub, Reg(st.next), Const(1.0)), Store(Reg(st.next + 1), loc)]
        && inc.st.env == dec.st.env == st.env
      case None => inc == dec == Step(NoValue, st)
  {
    StepByOne(id, '+', FAdd, st);
    StepByOne(id, '-', FSub, st);
  }

  /** `-n` is the subtraction 0.0 - n. */
  lemma NegativeLiteralSubtractsFromZero(n: real, st: State)
    ensures Lower(NegNumber(n), st) == Step(Ok(Reg(st.next)), Emit(Bump(st), Bin(st.next, FSub, Const(0.0), Const(n))))
  {
    assert Lower(NegNumber(n), st) == LowerBinary(NegNumber(n), st);
    assert Lower(Number(0.0), st) == Step(Ok(Const(0.0)), st);
    assert Lower(Number(n), st) == Step(Ok(Const(n)), st);
  }

  /** `-x` loads `x` and multiplies it by -1.0; an unknown name gives no value. */
  lemma NegatedNameMultipliesByMinusOne(id: string, st: State)
    ensures var r := Lower(NegId(id), st);
      match Resolve(st, id)
      case Some(loc) =>
        && r.out == Ok(Reg(st.next + 1))
        && r.st.code == st.code + [Load(st.next, loc), Bin(st.next + 1, FMul, Reg(st.next), Const(-1.0))]
      case None => r.out == NoValue && r.st == st
  {
    NameOpConstant(id, '*', FMul, -1.0, st);
  }

  /** An if without else lowers exactly as the conditional whose else-branch is 0.0. */
  lemma IfWithoutElseIsZeroElse(c: Expr, s: Expr, st: State)
    ensures Lower(IfThen(c, s), st) == Lower(Ternary(c, s, Num(0.0)), st)
  {
    assert Lower(IfThen(c, s), st) == LowerIf(IfThen(c, s), st);
    assert Lower(Ternary(c, s, Num(0.0)), st) == LowerIf(Ternary(c, s, Num(0.0)), st);
    var sc := Lower(c, st);
    if sc.out.Ok? {
      assert LowerIf(IfThen(c, s), st) == LowerBranches(IfThen(c, s), sc.out.v, sc.st);
      assert LowerIf(Ternary(c, s, Num(0.0)), st) == LowerBranches(Ternary(c, s, Num(0.0)), sc.out.v, sc.st);
    }
  }

  /**
    `var x` without an initializer hands a null value to the store: lowering any
    block that starts with it crashes, right after the slot is allocated.
   */
  lemma UninitialisedScalarCrashes(id: string, stmts: seq<Expr>, st: State)
    ensures var r := Lower(BlockWith([VarScalar(id, None)], stmts), st);
      r.out == Crash && r.st.code == st.code + [Alloca(st.next, Scalar)]
  {
    var b := VarScalar(id, None);
    assert LowerBinding(b, st) == Step(Crash, Emit(Bump(st), Alloca(st.next, Scalar)));
    assert LowerDefs([b], st) == Step(Crash, Emit(Bump(st), Alloca(st.next, Scalar)));
    assert Lower(BlockWith([b], stmts), st) == LowerBlock(BlockWith([b], stmts), st);
  }

  /** The element stores that zero-fill elements `i` to `n - 1` of `slot`. */
  function ZeroStores(slot: nat, i: nat, n: nat): (s: seq<Instr>)
    requires i <= n
    ensures |s| == n - i
    ensures forall k :: 0 <= k < |s| ==> s[k] == StoreElem(Const(0.0), Slot(slot), Int(i + k))
    decreases n - i
  {
    if i == n then [] else [StoreElem(Const(0.0), Slot(slot), Int(i))] + ZeroStores(slot, i + 1, n)
  }

  lemma {:induction false} ElemsWithoutInitializers(b: Binding, slot: nat, i: nat, st: State)
    requires b.elems == [] && i <= b.size
    ensures LowerElems(b, slot, i, st) == Step(Ok(seq(b.size - i, _ => Const(0.0))), st.(code := st.code + ZeroStores(slot, i, b.size)))
    decreases b.size - i
  {
    if i < b.size {
      var st1 := Emit(st, StoreElem(Const(0.0), Slot(slot), Int(i)));
      ElemsWithoutInitializers(b, slot, i + 1, st1);
      assert LowerElems(b, slot, i, st) == Step(Ok([Const(0.0)] + LowerElems(b, slot, i + 1, st1).out.v), LowerElems(b, slot, i + 1, st1).st);
      assert st1.code + ZeroStores(slot, i + 1, b.size) == st.code + ZeroStores(slot, i, b.size);
      assert [Const(0.0)] + seq(b.size - (i + 1), _ => Const(0.0)) == seq(b.size - i, _ => Const(0.0));
    } else {
      assert st.code + ZeroStores(slot, i, b.size) == st.code;
      assert seq(b.size - i, _ => Const(0.0)) == [];
    }
  }

  /**
    `var a[n]` without an initializer list: for a positive size N (n truncated) it
    allocates one array slot of N elements and stores 0.0 into each element, in
    index order, and nothing else; a size of zero or less takes the scalar path
    with no initializer and crashes.
   */
  lemma {:induction false} ArrayWithoutInitializersIsZeroFilled(id: string, n: real, st: State)
    ensures var b := VarArray(id, n);
            var r := LowerBinding(b, st);
      if b.size > 0 then
        && r.out == Ok(st.next)
        && r.st == st.(next := st.next + 1, code := st.code + [Alloca(st.next, Array(b.size))] + ZeroStores(st.next, 0, b.size))
      else r.out == Crash
  {
    var b := VarArray(id, n);
    if b.size > 0 {
      var st1 := Emit(Bump(st), Alloca(st.next, Array(b.size)));
      ElemsWithoutInitializers(b, st.next, 0, st1);
    }
  }

  /**
    Both initializers the grammar builds are ones the loop lowering goes on with:
    after opening the init block, a binding is lowered and installed under its
    name, remembering the handle it shadows, and an assignment is lowered as such;
    either way the loop proper follows, and the initializer's code comes first.
    (Any other initializer fails there instead: `ExprFacts.ForInitMustBindOrAssign`.)
   */
  lemma GrammarForInitsAreLowered(b: Binding, a: Assignment, c: Expr, step: Assignment, body: Expr, st: State)
    ensures var initB := st.next;
      var blocks := LoopBlocks(initB, initB + 1, initB + 2, initB + 3);
      var st2 := EnterBlock(Emit(st, Br(initB)).(next := initB + 4), initB);
      var eb := ForStmt(InitFromBinding(b), c, step, body);
      var sb := LowerBinding(b, st2);
      var rb := Lower(eb, st);
      && sb.st.code <= rb.st.code
      && rb == (if sb.out.Ok? then LowerLoop(eb, blocks, sb.st.(env := sb.st.env[b.name := sb.out.v]), b.name, Lookup(sb.st.env, b.name))
                else Abort(sb))
    ensures var initB := st.next;
      var blocks := LoopBlocks(initB, initB + 1, initB + 2, initB + 3);
      var st2 := EnterBlock(Emit(st, Br(initB)).(next := initB + 4), initB);
      var ea := ForStmt(InitFromAssignment(a), c, step, body);
      var sa := LowerAssign(a, st2);
      var ra := Lower(ea, st);
      && sa.st.code <= ra.st.code
      && ra == (if sa.out.Ok? then LowerLoop(ea, blocks, sa.st, "", None) else Abort(sa))
  {
    var eb := ForStmt(InitFromBinding(b), c, step, body);
    var ea := ForStmt(InitFromAssignment(a), c, step, body);
    assert Lower(eb, st) == LowerFor(eb, st);
    assert Lower(ea, st) == LowerFor(ea, st);
  }

  /**
    A definition's no-emit mark changes nothing in the module: a definition lowers
    the same whichever the flag, and an extern keeps the prototype as parsed.
   */
  lemma EmitFlagOnlyAffectsPrinting(name: string, params: seq<string>, body: Expr, st: State)
    ensures MakeDefinition(MakeProto(name, params), body).func.proto.emit == false
    ensures MakeExtern(MakeProto(name, params)).proto.emit == true
    ensures LowerTop(MakeDefinition(MakeProto(name, params), body), st)
         == LowerTop(Definition(Func(MakeProto(name, params), body)), st)
  {
  }

  /**
    A program read as its list of items: each present item is lowered in turn on
    the state the previous one left; a failing item does not stop the rest, a crash
    does. The program itself never has a value.
   */
  function LowerItems(items: seq<Option<Top>>, st: State): (r: Step<Value>)
    decreases |items|
  {
    if |items| == 0 then Step(NoValue, st)
    else if items[0].None? then LowerItems(items[1..], st)
    else
      var s := LowerTop(items[0].value, st);
      if s.out.Crash? then Abort(s) else LowerItems(items[1..], s.st)
  }

  lemma {:induction false} ProgramLowersItemsInOrder(items: seq<Option<Top>>, st: State)
    ensures LowerTop(ProgramOf(items), st) == LowerItems(items, st)
    ensures !LowerTop(ProgramOf(items), st).out.Ok?
    decreases |items|
  {
    if |items| > 0 {
      if items[0].Some? {
        var s := LowerTop(items[0].value, st);
        if !s.out.Crash? {
          ProgramLowersItemsInOrder(items[1..], s.st);
        }
      } else {
        ProgramLowersItemsInOrder(items[1..], st);
      }
    }
  }
}
