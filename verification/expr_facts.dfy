/**
  Properties of single lowering steps: how names resolve, what is checked before
  what, which instruction a node ends with, and when nothing at all is emitted.
 */
module ExprFacts {
  import opened Options
  import opened Ast
  import opened Ir
  import opened Codegen

  lemma PrefixTrans<T>(a: seq<T>, b: seq<T>, c: seq<T>)
    requires a <= b && b <= c
    ensures a <= c
  {
  }

  /** The operator tags a binary node accepts are exactly `+ - * / < =`. */
  lemma BinaryOpcodeDomain(op: char)
    ensures BinaryOpcode(op).Some? <==> op in "+-*/<="
  {
  }

  /**
    A scalar read loads from the local slot when the environment binds the name,
    from the global otherwise, and fails with nothing emitted when neither knows it.
   */
  lemma ScalarReadResolution(name: string, index: Option<Expr>, st: State)
    ensures var r := Lower(Variable(name, index, false), st);
      && (name in st.env ==>
            r.out == Ok(Reg(st.next)) && r.st.code == st.code + [Load(st.next, Slot(st.env[name]))])
      && (name !in st.env && name in st.globals ==>
            r.out == Ok(Reg(st.next)) && r.st.code == st.code + [Load(st.next, Global(name))])
      && (name !in st.env && name !in st.globals ==> r == Step(NoValue, st))
      && r.st.env == st.env
  {
  }

  /**
    An element read lowers the index first and fails with it; otherwise it converts
    the index to an integer and resolves the name exactly as a scalar read does.
    Storage allocated as an array, or of unknown shape, has the element loaded;
    scalar storage crashes; an unknown name fails. All of this happens after the
    conversion.
   */
  lemma ElementReadResolution(name: string, index: Expr, st: State)
    ensures var r := Lower(Variable(name, Some(index), true), st);
      var si := Lower(index, st);
      && (!si.out.Ok? ==> r.out.Crash? == si.out.Crash? && !r.out.Ok? && r.st == si.st)
      && (si.out.Ok? ==>
            var k := si.st.next;
            var conv := si.st.code + [ToInt(k, si.out.v)];
            && (name in si.st.env ==>
                  if AllocatedShape(conv, si.st.env[name]) == Some(Scalar) then r.out == Crash && r.st.code == conv
                  else r.out == Ok(Reg(k + 1)) && r.st.code == conv + [LoadElem(k + 1, Slot(si.st.env[name]), Reg(k))])
            && (name !in si.st.env && name in si.st.globals ==>
                  if si.st.globals[name] == Scalar then r.out == Crash && r.st.code == conv
                  else r.out == Ok(Reg(k + 1)) && r.st.code == conv + [LoadElem(k + 1, Global(name), Reg(k))])
            && (name !in si.st.env && name !in si.st.globals ==> r.out == NoValue && r.st.code == conv))
  {
  }

  /** An element read whose index is missing dereferences it. */
  lemma ElementReadWithoutIndexCrashes(name: string, st: State)
    ensures Lower(Variable(name, None, true), st) == Step(Crash, st)
  {
  }

  /**
    An assignment lowers its value before anything else; when that fails nothing
    more is lowered and no store is emitted.
   */
  lemma AssignValueFirst(a: Assignment, st: State)
    ensures var sv := Lower(a.val, st);
      !sv.out.Ok? ==> var r := LowerAssign(a, st); !r.out.Ok? && r.out.Crash? == sv.out.Crash? && r.st == sv.st
  {
  }

  /**
    A scalar assignment stores the value into the local slot if the name is bound
    there, else into the global, and returns exactly the stored value; an unknown
    name stores nothing.
   */
  lemma ScalarAssignResolution(name: string, val: Expr, st: State)
    ensures var sv := Lower(val, st);
      var r := Lower(Assign(Assignment(name, val, None)), st);
      sv.out.Ok? ==>
        && (name in sv.st.env ==>
              r.out == Ok(sv.out.v) && r.st.code == sv.st.code + [Store(sv.out.v, Slot(sv.st.env[name]))])
        && (name !in sv.st.env && name in sv.st.globals ==>
              r.out == Ok(sv.out.v) && r.st.code == sv.st.code + [Store(sv.out.v, Global(name))])
        && (name !in sv.st.env && name !in sv.st.globals ==> r == Step(NoValue, sv.st))
  {
  }

  /** Whatever the target, a successful assignment ends with a store of the value it returns. */
  lemma AssignReturnsStored(a: Assignment, st: State)
    ensures var r := LowerAssign(a, st);
      r.out.Ok? ==>
        && |r.st.code| > 0
        && var last := r.st.code[|r.st.code| - 1];
        && (last.Store? || last.StoreElem?)
        && last.val == r.out.v
        && Resolve(r.st, a.name).Some? && last.loc == Resolve(r.st, a.name).value
  {
  }

  /**
    Both operands of a binary node are lowered, the right one even when the left
    one failed; the node succeeds exactly when both did and the tag is supported,
    and then ends with one instruction combining them.
   */
  lemma BinaryLowersBothOperands(op: char, lhs: Expr, rhs: Expr, st: State)
    ensures var sl := Lower(lhs, st);
      var r := Lower(Binary(op, lhs, rhs), st);
      !sl.out.Crash? ==>
        var sr := Lower(rhs, sl.st);
        && sr.st.code <= r.st.code
        && (r.out.Ok? <==> sl.out.Ok? && sr.out.Ok? && op in "+-*/<=")
        && (r.out.Crash? <==> sr.out.Crash?)
        && (r.out.Ok? ==>
              r.out == Ok(Reg(sr.st.next))
              && r.st.code == sr.st.code + [Bin(sr.st.next, BinaryOpcode(op).value, sl.out.v, sr.out.v)])
  {
  }

  /**
    A boolean node accepts only `A`, `O` and `N`. `N` negates its left operand and
    never needs a right one; `A` and `O` combine both and crash when the right one
    is missing or failed; any other tag fails.
   */
  lemma BooleanOperators(op: char, lhs: Expr, right: Option<Expr>, st: State)
    ensures var sl := Lower(lhs, st);
      var r := Lower(Boolean(op, lhs, right), st);
      sl.out.Ok? ==>
        var sr := if right.Some? then Lower(right.value, sl.st) else Step(NoValue, sl.st);
        !sr.out.Crash? ==>
          && (op == 'N' ==> r.out == Ok(Reg(sr.st.next)) && r.st.code == sr.st.code + [Not(sr.st.next, sl.out.v)])
          && (op == 'A' ==> (sr.out.Ok? ==> r.out == Ok(Reg(sr.st.next)) && r.st.code == sr.st.code + [And(sr.st.next, sl.out.v, sr.out.v)])
                            && (!sr.out.Ok? ==> r.out.Crash?))
          && (op == 'O' ==> (sr.out.Ok? ==> r.out == Ok(Reg(sr.st.next)) && r.st.code == sr.st.code + [Or(sr.st.next, sl.out.v, sr.out.v)])
                            && (!sr.out.Ok? ==> r.out.Crash?))
          && (op !in "AON" ==> r == Step(NoValue, sr.st))
  {
  }

  /** A `not` with no right operand lowers its operand and nothing else. */
  lemma NotNeedsNoRightOperand(lhs: Expr, st: State)
    ensures var sl := Lower(lhs, st);
      var r := Lower(Boolean('N', lhs, None), st);
      && (r.out.Ok? <==> sl.out.Ok?)
      && (sl.out.Ok? ==> r.st.code == sl.st.code + [Not(sl.st.next, sl.out.v)])
  {
  }

  /**
    A call to a function the module does not know, or with the wrong number of
    arguments, fails before any argument is lowered: the state is untouched.
   */
  lemma CallChecksCalleeFirst(callee: string, args: seq<Expr>, st: State)
    requires callee !in st.funcs || |st.funcs[callee].params| != |args|
    ensures Lower(Call(callee, args), st) == Step(NoValue, st)
  {
  }

  /** A call with a known callee and matching arity is its arguments' code followed by one call. */
  lemma CallAfterArguments(callee: string, args: seq<Expr>, st: State)
    requires callee in st.funcs && |st.funcs[callee].params| == |args|
    ensures var sa := LowerArgs(args, st);
      var r := Lower(Call(callee, args), st);
      && (r.out.Ok? <==> sa.out.Ok?)
      && (sa.out.Ok? ==>
            && r.out == Ok(Reg(sa.st.next))
            && r.st.code == sa.st.code + [CallFn(sa.st.next, callee, sa.out.v)]
            && |sa.out.v| == |args|)
  {
  }

  /**
    Arguments go left to right: lowering one more argument at the end is lowering
    the others, then that one from where they left off; a failure among the others
    stops before it.
   */
  lemma {:induction false} ArgsLeftToRight(args: seq<Expr>, a: Expr, st: State)
    ensures var s := LowerArgs(args, st);
      var r := LowerArgs(args + [a], st);
      && (!s.out.Ok? ==> r == Abort(s))
      && (s.out.Ok? ==>
            var sa := Lower(a, s.st);
            && (!sa.out.Ok? ==> r == Abort(sa))
            && (sa.out.Ok? ==> r == Step(Ok(s.out.v + [sa.out.v]), sa.st)))
    decreases |args|
  {
    if |args| == 0 {
      assert args + [a] == [a];
      assert [a][1..] == [];
      var sa := Lower(a, st);
      if sa.out.Ok? {
        assert LowerArgs([a][1..], sa.st) == Step(Ok([]), sa.st);
        assert [sa.out.v] + [] == [] + [sa.out.v];
      }
    } else {
      assert (args + [a])[0] == args[0];
      assert (args + [a])[1..] == args[1..] + [a];
      var s0 := Lower(args[0], st);
      if s0.out.Ok? {
        ArgsLeftToRight(args[1..], a, s0.st);
        var rest := LowerArgs(args[1..], s0.st);
        if rest.out.Ok? {
          var sa := Lower(a, rest.st);
          if sa.out.Ok? {
            assert [s0.out.v] + (rest.out.v + [sa.out.v]) == ([s0.out.v] + rest.out.v) + [sa.out.v];
          }
        }
      }
    }
  }

  /**
    A conditional lowers its condition and fails with it; otherwise it branches on
    the condition to two fresh blocks, enters the first, and lowers the
    then-branch there, failing with it.
   */
  lemma IfBranchesOnCondition(e: Expr, st: State)
    requires e.If?
    ensures var sc := Lower(e.cond, st);
      var r := Lower(e, st);
      && (!sc.out.Ok? ==> r == Abort(sc))
      && (sc.out.Ok? ==>
            var thenB := sc.st.next;
            var st1 := Emit(sc.st.(next := thenB + 3), CondBr(sc.out.v, thenB, thenB + 1));
            var stv := Lower(e.thenExp, EnterBlock(st1, thenB));
            && sc.st.code + [CondBr(sc.out.v, thenB, thenB + 1), Enter(thenB)] <= r.st.code
            && (!stv.out.Ok? ==> r == Abort(stv)))
  {
    var sc := Lower(e.cond, st);
    if sc.out.Ok? {
      assert Lower(e, st) == LowerBranches(e, sc.out.v, sc.st);
      BranchesOpen(e, sc.out.v, sc.st);
    }
  }

  /** The start of a conditional's branches: the branch on `cond`, then the then-block. */
  lemma BranchesOpen(e: Expr, cond: Value, st: State)
    requires e.If?
    ensures var r := LowerBranches(e, cond, st);
      var thenB := st.next;
      var st2 := EnterBlock(Emit(st.(next := thenB + 3), CondBr(cond, thenB, thenB + 1)), thenB);
      var stv := Lower(e.thenExp, st2);
      && st.code + [CondBr(cond, thenB, thenB + 1), Enter(thenB)] <= r.st.code
      && (!stv.out.Ok? ==> r == Abort(stv))
  {
    var thenB := st.next;
    var st2 := EnterBlock(Emit(st.(next := thenB + 3), CondBr(cond, thenB, thenB + 1)), thenB);
    assert st2.code == st.code + [CondBr(cond, thenB, thenB + 1), Enter(thenB)];
    var stv := Lower(e.thenExp, st2);
    if stv.out.Ok? {
      BranchesTail(e, cond, st, stv);
      PrefixTrans(st2.code, stv.st.code, LowerBranches(e, cond, st).st.code);
    }
  }

  /** Everything a conditional emits after its then-branch comes after that branch's code. */
  lemma BranchesTail(e: Expr, cond: Value, st: State, stv: Step<Value>)
    requires e.If? && stv.out.Ok?
    requires stv == Lower(e.thenExp, EnterBlock(Emit(st.(next := st.next + 3), CondBr(cond, st.next, st.next + 1)), st.next))
    ensures stv.st.code <= LowerBranches(e, cond, st).st.code
  {
    var r := LowerBranches(e, cond, st);
    var st3 := EnterBlock(Emit(stv.st, Br(st.next + 2)), st.next + 1);
    var sf := if e.elseExp.Some? then Lower(e.elseExp.value, st3) else Step(Ok(Const(0.0)), st3);
    PrefixTrans(stv.st.code, st3.code, sf.st.code);
    if sf.out.Ok? {
      var st5 := EnterBlock(Emit(sf.st, Br(st.next + 2)), st.next + 2);
      PrefixTrans(stv.st.code, sf.st.code, st5.code);
      PrefixTrans(stv.st.code, st5.code, r.st.code);
    }
  }

  /**
    A conditional that succeeds ends in a third fresh block with a phi of exactly
    two incoming values: the then-branch's, from the block the then-branch finished
    in, and the else-branch's, from the block the else-branch finished in. With no
    else-branch the second incoming value is the constant 0.0, arriving straight
    from the else block.
   */
  lemma IfMergesTwoValues(e: Expr, st: State)
    requires e.If?
    ensures var r := Lower(e, st);
      r.out.Ok? ==>
        var sc := Lower(e.cond, st);
        && sc.out.Ok?
        && var thenB := sc.st.next;
        var st1 := Emit(sc.st.(next := thenB + 3), CondBr(sc.out.v, thenB, thenB + 1));
        var stv := Lower(e.thenExp, EnterBlock(st1, thenB));
        && stv.out.Ok?
        && |r.st.code| >= 2
        && var last := r.st.code[|r.st.code| - 1];
        && last.Phi?
        && r.out == Ok(Reg(last.reg))
        && |last.incoming| == 2
        && last.incoming[0] == Incoming(stv.out.v, stv.st.cursor)
        && r.st.code[|r.st.code| - 2] == Enter(thenB + 2)
        && r.st.cursor == thenB + 2
        && (e.elseExp.None? ==> last.incoming[1] == Incoming(Const(0.0), thenB + 1))
        && (e.elseExp.Some? ==>
              var sf := Lower(e.elseExp.value, EnterBlock(Emit(stv.st, Br(thenB + 2)), thenB + 1));
              sf.out.Ok? && last.incoming[1] == Incoming(sf.out.v, sf.st.cursor))
  {
    var sc := Lower(e.cond, st);
    if sc.out.Ok? {
      assert Lower(e, st) == LowerBranches(e, sc.out.v, sc.st);
      BranchesMerge(e, sc.out.v, sc.st);
    }
  }

  /** The merge of a conditional's branches, once its condition has lowered to `cond`. */
  lemma BranchesMerge(e: Expr, cond: Value, st: State)
    requires e.If?
    ensures var r := LowerBranches(e, cond, st);
      r.out.Ok? ==>
        var thenB := st.next;
        var st1 := Emit(st.(next := thenB + 3), CondBr(cond, thenB, thenB + 1));
        var stv := Lower(e.thenExp, EnterBlock(st1, thenB));
        && stv.out.Ok?
        && |r.st.code| >= 2
        && var last := r.st.code[|r.st.code| - 1];
        && last.Phi?
        && r.out == Ok(Reg(last.reg))
        && |last.incoming| == 2
        && last.incoming[0] == Incoming(stv.out.v, stv.st.cursor)
        && r.st.code[|r.st.code| - 2] == Enter(thenB + 2)
        && r.st.cursor == thenB + 2
        && (e.elseExp.None? ==> last.incoming[1] == Incoming(Const(0.0), thenB + 1))
        && (e.elseExp.Some? ==>
              var sf := Lower(e.elseExp.value, EnterBlock(Emit(stv.st, Br(thenB + 2)), thenB + 1));
              sf.out.Ok? && last.incoming[1] == Incoming(sf.out.v, sf.st.cursor))
  {
  }

  /**
    The statements `pre + [s]` succeed only when `pre` does and `s` then does, and
    their value is the value of `s`, lowered in the state `pre` left.
   */
  lemma {:induction false} StmtsValueIsLast(pre: seq<Expr>, s: Expr, st: State)
    ensures var r := LowerStmts(pre + [s], st);
      var sp := LowerStmts(pre, st);
      r.out.Ok? ==>
        && sp.out.Ok?
        && var sl := Lower(s, sp.st);
        && sl.out.Ok? && r.out.v == Some(sl.out.v) && r.st == sl.st
    decreases |pre|
  {
    if |pre| == 0 {
      assert pre + [s] == [s];
      assert [s][1..] == [];
    } else {
      assert (pre + [s])[0] == pre[0];
      assert (pre + [s])[1..] == pre[1..] + [s];
      var s0 := Lower(pre[0], st);
      if s0.out.Ok? {
        StmtsValueIsLast(pre[1..], s, s0.st);
      }
    }
  }

  /**
    A block that yields a value has at least one statement, and yields the value of
    its last one, lowered after its bindings and the statements before it.
   */
  lemma BlockValueIsLastStatement(e: Expr, st: State)
    requires e.Block?
    ensures var r := Lower(e, st);
      r.out.Ok? ==>
        && |e.stmts| > 0
        && var sd := LowerDefs(e.defs, st);
        && sd.out.Ok?
        && var sp := LowerStmts(e.stmts[..|e.stmts| - 1], sd.st);
        && sp.out.Ok?
        && var sl := Lower(e.stmts[|e.stmts| - 1], sp.st);
        && sl.out.Ok? && r.out.v == sl.out.v
  {
    var sd := LowerDefs(e.defs, st);
    if sd.out.Ok? && |e.stmts| > 0 {
      var n := |e.stmts|;
      assert e.stmts == e.stmts[..n - 1] + [e.stmts[n - 1]];
      StmtsValueIsLast(e.stmts[..n - 1], e.stmts[n - 1], sd.st);
    }
  }

  /** A for-loop whose initializer is neither a binding nor an assignment fails right after opening its init block. */
  lemma ForInitMustBindOrAssign(init: Expr, c: Expr, step: Assignment, body: Expr, st: State)
    requires !init.Assign?
    ensures var r := Lower(For(InitExpr(init), c, step, body), st);
      && r.out == NoValue
      && r.st.env == st.env
      && r.st.code == st.code + [Br(st.next), Enter(st.next)]
  {
  }

  /**
    Once the initializer is lowered, a failing condition fails the loop. Otherwise
    the condition branches to the body block or the after block; the body is
    lowered in the body block and fails the loop when it fails, and the increment
    follows it, failing the loop when it fails. A loop that gets through all three
    yields the constant 0.0 and leaves the cursor in its after block, reached by
    the back edge to the condition.
   */
  lemma LoopShape(e: Expr, blocks: LoopBlocks, st: State, name: string, shadowed: Option<nat>)
    requires e.For?
    ensures var sc := Lower(e.cond, EnterBlock(Emit(st, Br(blocks.cond)), blocks.cond));
      var r := LowerLoop(e, blocks, st, name, shadowed);
      && (!sc.out.Ok? ==> r == Abort(sc))
      && (sc.out.Ok? ==>
            var st1 := Emit(sc.st, CondBr(sc.out.v, blocks.body, blocks.after));
            var sb := Lower(e.body, EnterBlock(st1, blocks.body));
            && (!sb.out.Ok? ==> r == Abort(sb))
            && (sb.out.Ok? ==>
                  var ss := LowerAssign(e.step, sb.st);
                  && (!ss.out.Ok? ==> r == Abort(ss))
                  && (ss.out.Ok? ==> r.out.Ok? && r.st.code == ss.st.code + [Br(blocks.cond), Enter(blocks.after)])))
      && (r.out.Ok? ==>
            && r.out.v == Const(0.0)
            && r.st.cursor == blocks.after
            && |r.st.code| >= 2
            && r.st.code[|r.st.code| - 2..] == [Br(blocks.cond), Enter(blocks.after)])
  {
  }
}
