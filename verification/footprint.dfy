/**
  Which stack slots lowering touches. Every slot an emitted instruction allocates,
  reads or writes is one the environment could name when lowering started, or a
  fresh one drawn during it; the environment only ever gains such handles. So a
  freshly allocated array cannot be touched by the initializers that fill it, and
  its initialisation is exactly one allocation and one element store per element,
  in index order.
 */
module Footprint {
  import opened Options
  import opened Ast
  import opened Ir
  import opened Codegen
  import opened TopLevel
  import opened Naming

  /** The stack slot an instruction allocates, loads from or stores into, if any. */
  function SlotOf(i: Instr): Option<nat> {
    match i
    case Alloca(s, _) => Some(s)
    case Load(_, loc) => if loc.Slot? then Some(loc.slot) else None
    case LoadElem(_, loc, _) => if loc.Slot? then Some(loc.slot) else None
    case Store(_, loc) => if loc.Slot? then Some(loc.slot) else None
    case StoreElem(_, loc, _) => if loc.Slot? then Some(loc.slot) else None
    case _ => None
  }

  /** The instructions of `code` that touch `slot`, in order. */
  function SlotUses(code: seq<Instr>, slot: nat): seq<Instr> {
    if |code| == 0 then []
    else (if SlotOf(code[0]) == Some(slot) then [code[0]] else []) + SlotUses(code[1..], slot)
  }

  /** A slot lowering from `st` may legitimately touch: one the environment names, or a fresh one. */
  ghost predicate Reachable(st: State, s: nat) {
    s in st.env.Values || s >= st.next
  }

  /** Every handle in the environment was drawn before the counter: the invariant of real sessions. */
  ghost predicate HandlesAllocated(st: State) {
    forall x :: x in st.env ==> st.env[x] < st.next
  }

  /** Every handle of `env` is a slot `st` may touch. */
  ghost predicate EnvWithin(st: State, env: map<string, nat>) {
    forall x :: x in env ==> Reachable(st, env[x])
  }

  /**
    What going from `st` to `st'` may do to the stack: the instructions appended
    touch only slots reachable from `st`, the environment holds only such slots,
    and handles stay below the counter.
   */
  ghost predicate Confined(st: State, st': State) {
    && |st.code| <= |st'.code|
    && (forall k :: |st.code| <= k < |st'.code| && SlotOf(st'.code[k]).Some? ==> Reachable(st, SlotOf(st'.code[k]).value))
    && EnvWithin(st, st'.env)
    && (HandlesAllocated(st) ==> HandlesAllocated(st'))
  }

  lemma ReachableTrans(a: State, b: State, s: nat)
    requires EnvWithin(a, b.env) && a.next <= b.next
    requires Reachable(b, s)
    ensures Reachable(a, s)
  {
    if s in b.env.Values {
      var x :| x in b.env && b.env[x] == s;
    }
  }

  lemma {:induction false} ConfinedTrans(a: State, b: State, c: State)
    requires Extends(a, b) && Extends(b, c)
    requires Confined(a, b) && Confined(b, c)
    ensures Confined(a, c)
  {
    forall k | |a.code| <= k < |c.code| && SlotOf(c.code[k]).Some?
      ensures Reachable(a, SlotOf(c.code[k]).value)
    {
      if k < |b.code| {
        assert c.code[k] == b.code[k];
      } else {
        ReachableTrans(a, b, SlotOf(c.code[k]).value);
      }
    }
    forall x | x in c.env ensures Reachable(a, c.env[x]) {
      ReachableTrans(a, b, c.env[x]);
    }
  }

  /** Appending instructions that touch only reachable slots, and drawing ids, stays confined. */
  lemma EmitConfined(st: State, st': State)
    requires st'.env == st.env && st.next <= st'.next && st.code <= st'.code
    requires forall k :: |st.code| <= k < |st'.code| && SlotOf(st'.code[k]).Some? ==> Reachable(st, SlotOf(st'.code[k]).value)
    ensures Confined(st, st')
  {
    forall x | x in st'.env ensures Reachable(st, st'.env[x]) {
      assert st.env[x] in st.env.Values;
    }
  }

  /** The same, for appending after a step already confined relative to `base`. */
  lemma AppendConfined(base: State, st: State, st': State)
    requires Extends(base, st) && Confined(base, st)
    requires st'.env == st.env && st.next <= st'.next && st.code <= st'.code
    requires forall k :: |st.code| <= k < |st'.code| && SlotOf(st'.code[k]).Some? ==> Reachable(base, SlotOf(st'.code[k]).value)
    ensures Confined(base, st')
  {
    forall k | |base.code| <= k < |st'.code| && SlotOf(st'.code[k]).Some?
      ensures Reachable(base, SlotOf(st'.code[k]).value)
    {
      if k < |st.code| {
        assert st'.code[k] == st.code[k];
      }
    }
  }

  lemma ConfinedRefl(st: State)
    ensures Confined(st, st)
  {
    EmitConfined(st, st);
  }

  /** A chain confined relative to `base` stays so after lowering one more expression. */
  lemma {:induction false} LowerFrom(base: State, e: Expr, st: State)
    requires Extends(base, st) && Confined(base, st)
    ensures Confined(base, Lower(e, st).st)
    decreases e, 3
  {
    LowerConfined(e, st);
    ConfinedTrans(base, st, Lower(e, st).st);
  }

  /** The same for one more assignment. */
  lemma {:induction false} AssignFrom(base: State, a: Assignment, st: State)
    requires Extends(base, st) && Confined(base, st)
    ensures Confined(base, LowerAssign(a, st).st)
    decreases a, 2
  {
    AssignConfined(a, st);
    ConfinedTrans(base, st, LowerAssign(a, st).st);
  }

  /**
    Frame theorem: lowering any expression, whatever its outcome, touches only
    slots the environment named or fresh ones, and installs only such handles.
   */
  lemma {:induction false} LowerConfined(e: Expr, st: State)
    ensures Confined(st, Lower(e, st).st)
    decreases e, 2
  {
    match e
    case Number(_) => ConfinedRefl(st);
    case Variable(_, _, _) => VariableConfined(e, st);
    case Binary(_, _, _) => BinaryConfined(e, st);
    case Boolean(_, _, _) => BooleanConfined(e, st);
    case Call(_, _) => CallConfined(e, st);
    case If(_, _, _) => IfConfined(e, st);
    case Block(_, _) => BlockConfined(e, st);
    case Assign(a) => AssignConfined(a, st);
    case For(_, _, _, _) => ForConfined(e, st);
  }

  lemma {:induction false} VariableConfined(e: Expr, st: State)
    requires e.Variable?
    ensures Confined(st, LowerVariable(e, st).st)
    decreases e, 1
  {
    var r := LowerVariable(e, st);
    if !e.isArray {
      if e.name in st.env {
        assert st.env[e.name] in st.env.Values;
        EmitConfined(st, r.st);
      } else {
        EmitConfined(st, r.st);
      }
    } else if e.index.None? {
      ConfinedRefl(st);
    } else {
      var si := Lower(e.index.value, st);
      LowerConfined(e.index.value, st);
      if si.out.Ok? {
        var st1 := Emit(Bump(si.st), ToInt(si.st.next, si.out.v));
        EmitConfined(si.st, st1);
        ConfinedTrans(st, si.st, st1);
        if e.name in st1.env {
          assert st1.env[e.name] in st1.env.Values;
        }
        EmitConfined(st1, r.st);
        ConfinedTrans(st, st1, r.st);
      }
    }
  }

  lemma {:induction false} BinaryConfined(e: Expr, st: State)
    requires e.Binary?
    ensures Confined(st, LowerBinary(e, st).st)
    decreases e, 1
  {
    var r := LowerBinary(e, st);
    var sl := Lower(e.lhs, st);
    LowerConfined(e.lhs, st);
    if !sl.out.Crash? {
      var sr := Lower(e.rhs, sl.st);
      LowerConfined(e.rhs, sl.st);
      ConfinedTrans(st, sl.st, sr.st);
      EmitConfined(sr.st, r.st);
      ConfinedTrans(st, sr.st, r.st);
    }
  }

  lemma {:induction false} BooleanConfined(e: Expr, st: State)
    requires e.Boolean?
    ensures Confined(st, LowerBoolean(e, st).st)
    decreases e, 1
  {
    var r := LowerBoolean(e, st);
    var sl := Lower(e.lhs, st);
    LowerConfined(e.lhs, st);
    if !sl.out.Crash? {
      var sr := if e.right.Some? then Lower(e.right.value, sl.st) else Step(NoValue, sl.st);
      if e.right.Some? { LowerFrom(st, e.right.value, sl.st); }
      AppendConfined(st, sr.st, r.st);
    }
  }

  lemma {:induction false} CallConfined(e: Expr, st: State)
    requires e.Call?
    ensures Confined(st, LowerCall(e, st).st)
    decreases e, 1
  {
    var r := LowerCall(e, st);
    if e.callee !in st.funcs || |st.funcs[e.callee].params| != |e.args| {
      ConfinedRefl(st);
    } else {
      var sa := LowerArgs(e.args, st);
      ArgsConfined(e.args, st);
      EmitConfined(sa.st, r.st);
      ConfinedTrans(st, sa.st, r.st);
    }
  }

  lemma {:induction false} ArgsConfined(args: seq<Expr>, st: State)
    ensures Confined(st, LowerArgs(args, st).st)
    decreases args, 0
  {
    if |args| == 0 {
      ConfinedRefl(st);
    } else {
      var s0 := Lower(args[0], st);
      LowerConfined(args[0], st);
      if s0.out.Ok? {
        ArgsConfined(args[1..], s0.st);
        ConfinedTrans(st, s0.st, LowerArgs(args[1..], s0.st).st);
      }
    }
  }

  lemma {:induction false} IfConfined(e: Expr, st: State)
    requires e.If?
    ensures Confined(st, LowerIf(e, st).st)
    decreases e, 1
  {
    var sc := Lower(e.cond, st);
    LowerConfined(e.cond, st);
    if sc.out.Ok? {
      var sb := LowerBranches(e, sc.out.v, sc.st);
      BranchesConfined(e, sc.out.v, sc.st);
      ConfinedTrans(st, sc.st, sb.st);
    }
  }

  /** The state a conditional's then-branch is lowered in. */
  function ThenEntry(cond: Value, st: State): State {
    EnterBlock(Emit(st.(next := st.next + 3), CondBr(cond, st.next, st.next + 1)), st.next)
  }

  lemma {:induction false} BranchesConfined(e: Expr, cond: Value, st: State)
    requires e.If?
    ensures Confined(st, LowerBranches(e, cond, st).st)
    decreases e, 0, 1
  {
    var st1 := ThenEntry(cond, st);
    EmitConfined(st, st1);
    LowerFrom(st, e.thenExp, st1);
    var stv := Lower(e.thenExp, st1);
    if stv.out.Ok? {
      ElseConfined(e, cond, st, stv);
    }
  }

  /** The else-branch and the merge, once the then-branch has lowered confined to `st`. */
  lemma {:induction false} ElseConfined(e: Expr, cond: Value, st: State, stv: Step<Value>)
    requires e.If? && stv == Lower(e.thenExp, ThenEntry(cond, st)) && stv.out.Ok?
    requires Extends(st, stv.st) && Confined(st, stv.st)
    ensures Confined(st, LowerBranches(e, cond, st).st)
    decreases e, 0, 0
  {
    var r := LowerBranches(e, cond, st);
    var thenB := st.next;
    var st3 := EnterBlock(Emit(stv.st, Br(thenB + 2)), thenB + 1);
    AppendConfined(st, stv.st, st3);
    var sf := if e.elseExp.Some? then Lower(e.elseExp.value, st3) else Step(Ok(Const(0.0)), st3);
    if e.elseExp.Some? { LowerFrom(st, e.elseExp.value, st3); }
    if sf.out.Ok? {
      AppendConfined(st, sf.st, r.st);
    }
  }

  lemma {:induction false} StmtsConfined(stmts: seq<Expr>, st: State)
    ensures Confined(st, LowerStmts(stmts, st).st)
    decreases stmts, 0
  {
    if |stmts| == 0 {
      ConfinedRefl(st);
    } else {
      var s0 := Lower(stmts[0], st);
      LowerConfined(stmts[0], st);
      if s0.out.Ok? {
        StmtsConfined(stmts[1..], s0.st);
        ConfinedTrans(st, s0.st, LowerStmts(stmts[1..], s0.st).st);
      }
    }
  }

  /**
    Filling elements `i`, `i + 1`, ... of an array allocated at `slot` during a step
    that started at `base`.
   */
  lemma {:induction false} ElemsConfined(b: Binding, slot: nat, i: nat, st: State, base: State)
    requires i <= b.size
    requires Extends(base, st) && Confined(base, st) && Reachable(base, slot)
    ensures Confined(base, LowerElems(b, slot, i, st).st)
    decreases b, 0, b.size - i
  {
    if i < b.size {
      var sv := if i < |b.elems| then Lower(b.elems[i], st) else Step(Ok(Const(0.0)), st);
      if i < |b.elems| { LowerConfined(b.elems[i], st); } else { ConfinedRefl(st); }
      ConfinedTrans(base, st, sv.st);
      if sv.out.Ok? {
        var st1 := Emit(sv.st, StoreElem(sv.out.v, Slot(slot), Int(i)));
        AppendConfined(base, sv.st, st1);
        ElemsConfined(b, slot, i + 1, st1, base);
      }
    }
  }

  /** A binding's slot is fresh, and drawn before the state it leaves. */
  lemma {:induction false} BindingConfined(b: Binding, st: State)
    ensures var r := LowerBinding(b, st);
      Confined(st, r.st) && (r.out.Ok? ==> st.next <= r.out.v < r.st.next)
    decreases b, 1
  {
    var r := LowerBinding(b, st);
    var slot := st.next;
    if b.size > 0 {
      var st1 := Emit(Bump(st), Alloca(slot, Array(b.size)));
      EmitConfined(st, st1);
      ElemsConfined(b, slot, 0, st1, st);
    } else {
      var st1 := Emit(Bump(st), Alloca(slot, Scalar));
      EmitConfined(st, st1);
      if b.init.Some? {
        var sv := Lower(b.init.value, st1);
        LowerConfined(b.init.value, st1);
        ConfinedTrans(st, st1, sv.st);
        if sv.out.Ok? {
          AppendConfined(st, sv.st, r.st);
        }
      }
    }
  }

  /** Installing a reachable handle, below the counter when handles were, keeps a step confined. */
  lemma InstallConfined(st: State, st': State, x: string, v: nat)
    requires Confined(st, st') && Reachable(st, v) && (HandlesAllocated(st) ==> v < st'.next)
    ensures Confined(st, st'.(env := st'.env[x := v]))
  {
  }

  /**
    The bindings of a block: confined, and every saved handle is a slot reachable
    from the start that is below the counter whenever the handles were.
   */
  lemma {:induction false} DefsConfined(defs: seq<Binding>, st: State)
    ensures var r := LowerDefs(defs, st);
      && Confined(st, r.st)
      && (r.out.Ok? ==> forall k :: 0 <= k < |r.out.v| && r.out.v[k].Some? ==>
            Reachable(st, r.out.v[k].value) && (HandlesAllocated(st) ==> r.out.v[k].value < r.st.next))
    decreases defs, 0
  {
    var r := LowerDefs(defs, st);
    if |defs| == 0 {
      ConfinedRefl(st);
    } else {
      var sb := LowerBinding(defs[0], st);
      BindingConfined(defs[0], st);
      if sb.out.Ok? {
        var saved := Lookup(sb.st.env, defs[0].name);
        var st1 := sb.st.(env := sb.st.env[defs[0].name := sb.out.v]);
        InstallConfined(st, sb.st, defs[0].name, sb.out.v);
        var rest := LowerDefs(defs[1..], st1);
        DefsConfined(defs[1..], st1);
        ConfinedTrans(st, st1, rest.st);
        if rest.out.Ok? {
          assert r.out.v == [saved] + rest.out.v;
          forall k | 0 <= k < |r.out.v| && r.out.v[k].Some?
            ensures Reachable(st, r.out.v[k].value) && (HandlesAllocated(st) ==> r.out.v[k].value < r.st.next)
          {
            if k == 0 {
              assert sb.st.env[defs[0].name] in sb.st.env.Values;
            } else {
              assert r.out.v[k] == rest.out.v[k - 1];
              ReachableTrans(st, st1, r.out.v[k].value);
            }
          }
        }
      }
    }
  }

  /** Writing saved handles back installs only handles that were there or were saved. */
  lemma {:induction false} RestoreHandles(env: map<string, nat>, names: seq<string>, saved: seq<Option<nat>>)
    requires |names| == |saved|
    ensures forall x :: x in Restore(env, names, saved) ==>
      Restore(env, names, saved)[x] in env.Values || Some(Restore(env, names, saved)[x]) in saved
    decreases |names|
  {
    if |names| > 0 {
      var env1 := Put(env, names[0], saved[0]);
      RestoreHandles(env1, names[1..], saved[1..]);
      assert Restore(env, names, saved) == Restore(env1, names[1..], saved[1..]);
      forall x | x in Restore(env, names, saved)
        ensures Restore(env, names, saved)[x] in env.Values || Some(Restore(env, names, saved)[x]) in saved
      {
        var v := Restore(env, names, saved)[x];
        if v in env1.Values {
          var y :| y in env1 && env1[y] == v;
          if y == names[0] && saved[0].Some? {
            assert Lookup(env1, y) == saved[0];
          } else {
            assert Lookup(env1, y) == Lookup(env, y);
          }
        } else {
          var k :| 0 <= k < |saved[1..]| && saved[1..][k] == Some(v);
          assert saved[k + 1] == Some(v);
        }
      }
    }
  }

  lemma {:induction false} BlockConfined(e: Expr, st: State)
    requires e.Block?
    ensures Confined(st, LowerBlock(e, st).st)
    decreases e, 1
  {
    var r := LowerBlock(e, st);
    var sd := LowerDefs(e.defs, st);
    DefsConfined(e.defs, st);
    if sd.out.Ok? {
      var ss := LowerStmts(e.stmts, sd.st);
      StmtsConfined(e.stmts, sd.st);
      ConfinedTrans(st, sd.st, ss.st);
      if ss.out.Ok? {
        var fin := Restore(ss.st.env, Names(e.defs), sd.out.v);
        RestoreHandles(ss.st.env, Names(e.defs), sd.out.v);
        forall x | x in fin ensures Reachable(st, fin[x]) && (HandlesAllocated(st) ==> fin[x] < ss.st.next) {
          if fin[x] in ss.st.env.Values {
            var y :| y in ss.st.env && ss.st.env[y] == fin[x];
          } else {
            var k :| 0 <= k < |sd.out.v| && sd.out.v[k] == Some(fin[x]);
          }
        }
      }
    }
  }

  lemma {:induction false} AssignConfined(a: Assignment, st: State)
    ensures Confined(st, LowerAssign(a, st).st)
    decreases a, 1
  {
    var r := LowerAssign(a, st);
    var sv := Lower(a.val, st);
    LowerConfined(a.val, st);
    if sv.out.Ok? {
      if a.index.Some? {
        var si := Lower(a.index.value, sv.st);
        LowerFrom(st, a.index.value, sv.st);
        if si.out.Ok? {
          var st1 := Emit(Bump(si.st), ToInt(si.st.next, si.out.v));
          AppendConfined(st, si.st, st1);
          if a.name in st1.env {
            assert st1.env[a.name] in st1.env.Values;
          }
          AppendConfined(st, st1, r.st);
        }
      } else {
        if a.name in sv.st.env {
          assert sv.st.env[a.name] in sv.st.env.Values;
        }
        AppendConfined(st, sv.st, r.st);
      }
    }
  }

  /**
    The rest of a loop, started in `st` after the initializer of a loop lowered from
    `base`: confined relative to `base`, given that the shadowed handle written back
    at the end is reachable from `base`.
   */
  lemma {:induction false} LoopConfined(e: Expr, blocks: LoopBlocks, st: State, name: string, shadowed: Option<nat>, base: State)
    requires e.For?
    requires Extends(base, st) && Confined(base, st)
    requires shadowed.Some? ==> Reachable(base, shadowed.value) && (HandlesAllocated(base) ==> shadowed.value < st.next)
    ensures Confined(base, LowerLoop(e, blocks, st, name, shadowed).st)
    decreases e, 0, 1
  {
    var st0 := EnterBlock(Emit(st, Br(blocks.cond)), blocks.cond);
    AppendConfined(base, st, st0);
    var sc := Lower(e.cond, st0);
    LowerFrom(base, e.cond, st0);
    if sc.out.Ok? {
      var st1 := EnterBlock(Emit(sc.st, CondBr(sc.out.v, blocks.body, blocks.after)), blocks.body);
      AppendConfined(base, sc.st, st1);
      var sb := Lower(e.body, st1);
      LowerFrom(base, e.body, st1);
      if sb.out.Ok? {
        LoopTailConfined(e, blocks, st, name, shadowed, base, sc, sb);
      }
    }
  }

  /** The step and the write-back of a loop whose condition and body lowered confined to `base`. */
  lemma {:induction false} LoopTailConfined(e: Expr, blocks: LoopBlocks, st: State, name: string, shadowed: Option<nat>,
                                            base: State, sc: Step<Value>, sb: Step<Value>)
    requires e.For?
    requires sc == Lower(e.cond, EnterBlock(Emit(st, Br(blocks.cond)), blocks.cond)) && sc.out.Ok?
    requires sb == Lower(e.body, EnterBlock(Emit(sc.st, CondBr(sc.out.v, blocks.body, blocks.after)), blocks.body)) && sb.out.Ok?
    requires Extends(base, sb.st) && Confined(base, sb.st) && st.next <= sb.st.next
    requires shadowed.Some? ==> Reachable(base, shadowed.value) && (HandlesAllocated(base) ==> shadowed.value < st.next)
    ensures Confined(base, LowerLoop(e, blocks, st, name, shadowed).st)
    decreases e, 0, 0
  {
    var ss := LowerAssign(e.step, sb.st);
    AssignFrom(base, e.step, sb.st);
    if ss.out.Ok? {
      var st2 := EnterBlock(Emit(ss.st, Br(blocks.cond)), blocks.after);
      AppendConfined(base, ss.st, st2);
      if shadowed.Some? {
        InstallConfined(base, st2, name, shadowed.value);
      }
    }
  }

  lemma {:induction false} ForConfined(e: Expr, st: State)
    requires e.For?
    ensures Confined(st, LowerFor(e, st).st)
    decreases e, 1
  {
    var r := LowerFor(e, st);
    var initB := st.next;
    var st1 := Emit(Bump(st), Br(initB));
    var blocks := LoopBlocks(initB, st1.next, st1.next + 1, st1.next + 2);
    var st2 := EnterBlock(st1.(next := st1.next + 3), initB);
    EmitConfined(st, st2);
    match e.init
    case InitBinding(b) =>
      var sb := LowerBinding(b, st2);
      BindingConfined(b, st2);
      ConfinedTrans(st, st2, sb.st);
      if sb.out.Ok? {
        var shadowed := Lookup(sb.st.env, b.name);
        var st3 := sb.st.(env := sb.st.env[b.name := sb.out.v]);
        InstallConfined(st, sb.st, b.name, sb.out.v);
        if shadowed.Some? {
          assert sb.st.env[b.name] in sb.st.env.Values;
        }
        LoopConfined(e, blocks, st3, b.name, shadowed, st);
      }
    case InitExpr(x) =>
      if x.Assign? {
        var sa := LowerAssign(x.assignment, st2);
        AssignConfined(x.assignment, st2);
        ConfinedTrans(st, st2, sa.st);
        if sa.out.Ok? {
          LoopConfined(e, blocks, sa.st, "", None, st);
        }
      }
  }

  lemma {:induction false} SlotUsesAppend(a: seq<Instr>, b: seq<Instr>, slot: nat)
    ensures SlotUses(a + b, slot) == SlotUses(a, slot) + SlotUses(b, slot)
    decreases |a|
  {
    if |a| == 0 {
      assert a + b == b;
    } else {
      var head := if SlotOf(a[0]) == Some(slot) then [a[0]] else [];
      assert (a + b)[0] == a[0];
      assert (a + b)[1..] == a[1..] + b;
      assert SlotUses(a + b, slot) == head + SlotUses(a[1..] + b, slot);
      SlotUsesAppend(a[1..], b, slot);
      assert SlotUses(a, slot) == head + SlotUses(a[1..], slot);
      assert head + (SlotUses(a[1..], slot) + SlotUses(b, slot))
          == (head + SlotUses(a[1..], slot)) + SlotUses(b, slot);
    }
  }

  lemma {:induction false} SlotUsesNone(code: seq<Instr>, slot: nat)
    requires forall k :: 0 <= k < |code| ==> SlotOf(code[k]) != Some(slot)
    ensures SlotUses(code, slot) == []
    decreases |code|
  {
    if |code| > 0 {
      assert forall k :: 0 <= k < |code[1..]| ==> code[1..][k] == code[k + 1];
      SlotUsesNone(code[1..], slot);
    }
  }

  /** A confined step does not touch a slot that was neither visible nor fresh. */
  lemma UnreachableUntouched(st: State, st': State, slot: nat)
    requires st.code <= st'.code && Confined(st, st') && !Reachable(st, slot)
    ensures SlotUses(st'.code[|st.code|..], slot) == []
  {
    var added := st'.code[|st.code|..];
    forall k | 0 <= k < |added| ensures SlotOf(added[k]) != Some(slot) {
      assert added[k] == st'.code[|st.code| + k];
    }
    SlotUsesNone(added, slot);
  }

  /** Untouched code, then one instruction on `slot`, then more code. */
  lemma UsesAfterUntouched(before: seq<Instr>, i: Instr, after: seq<Instr>, slot: nat)
    requires SlotUses(before, slot) == [] && SlotOf(i) == Some(slot)
    ensures SlotUses(before + [i] + after, slot) == [i] + SlotUses(after, slot)
  {
    assert SlotUses([i], slot) == [i] by {
      assert [i][1..] == [];
    }
    SlotUsesAppend(before, [i], slot);
    assert SlotUses(before + [i], slot) == [i];
    SlotUsesAppend(before + [i], after, slot);
  }

  /** `uses` are element stores of `vals` into `slot`, at positions `i`, `i + 1`, ... in order. */
  ghost predicate StoresInOrder(uses: seq<Instr>, vals: seq<Value>, slot: nat, i: nat) {
    |uses| == |vals| && forall k :: 0 <= k < |uses| ==> uses[k] == StoreElem(vals[k], Slot(slot), Int(i + k))
  }

  lemma StoresCons(before: seq<Instr>, v: Value, after: seq<Instr>, vals: seq<Value>, slot: nat, i: nat)
    requires SlotUses(before, slot) == []
    requires StoresInOrder(SlotUses(after, slot), vals, slot, i + 1)
    ensures StoresInOrder(SlotUses(before + [StoreElem(v, Slot(slot), Int(i))] + after, slot), [v] + vals, slot, i)
  {
    var store := StoreElem(v, Slot(slot), Int(i));
    UsesAfterUntouched(before, store, after, slot);
    var uses := SlotUses(before + [store] + after, slot);
    forall k | 0 <= k < |uses| ensures uses[k] == StoreElem(([v] + vals)[k], Slot(slot), Int(i + k)) {
      if k > 0 {
        assert uses[k] == SlotUses(after, slot)[k - 1];
      }
    }
  }

  /** A slot neither visible nor fresh before a confined step is not reachable after it. */
  lemma StillUnreachable(st: State, st': State, slot: nat)
    requires Confined(st, st') && st.next <= st'.next && !Reachable(st, slot)
    ensures !Reachable(st', slot)
  {
  }

  /**
    One element step on logs: from `s0`, untouched code up to `s1`, the store of `v`
    at position `i`, then stores in order up to `s2`.
   */
  lemma StoreStep(s0: seq<Instr>, s1: seq<Instr>, v: Value, s2: seq<Instr>, vals: seq<Value>, slot: nat, i: nat)
    requires s0 <= s1 && s1 + [StoreElem(v, Slot(slot), Int(i))] <= s2
    requires SlotUses(s1[|s0|..], slot) == []
    requires StoresInOrder(SlotUses(s2[|s1| + 1..], slot), vals, slot, i + 1)
    ensures StoresInOrder(SlotUses(s2[|s0|..], slot), [v] + vals, slot, i)
  {
    assert s2[|s0|..] == s1[|s0|..] + [StoreElem(v, Slot(slot), Int(i))] + s2[|s1| + 1..];
    StoresCons(s1[|s0|..], v, s2[|s1| + 1..], vals, slot, i);
  }

  /**
    Filling elements `i`, `i + 1`, ... of an array whose slot the environment cannot
    name: the only instructions touching the slot are one element store per
    element, in index order, each storing the value the initialisation yields.
   */
  lemma {:induction false} ElemsStoreInOrder(b: Binding, slot: nat, i: nat, st: State)
    requires i <= b.size && !Reachable(st, slot)
    ensures var r := LowerElems(b, slot, i, st);
      r.out.Ok? ==> StoresInOrder(SlotUses(r.st.code[|st.code|..], slot), r.out.v, slot, i)
    decreases b.size - i
  {
    var r := LowerElems(b, slot, i, st);
    if i == b.size {
      assert r.st.code[|st.code|..] == [];
    } else {
      var sv := if i < |b.elems| then Lower(b.elems[i], st) else Step(Ok(Const(0.0)), st);
      if i < |b.elems| { LowerConfined(b.elems[i], st); } else { ConfinedRefl(st); }
      if sv.out.Ok? {
        var store := StoreElem(sv.out.v, Slot(slot), Int(i));
        var st1 := Emit(sv.st, store);
        UnreachableUntouched(st, sv.st, slot);
        StillUnreachable(st, sv.st, slot);
        ElemsStoreInOrder(b, slot, i + 1, st1);
        var rest := LowerElems(b, slot, i + 1, st1);
        if rest.out.Ok? {
          assert r == Step(Ok([sv.out.v] + rest.out.v), rest.st);
          StoreStep(st.code, sv.st.code, sv.out.v, rest.st.code, rest.out.v, slot, i);
        }
      }
    }
  }

  /**
    An array binding of size N in a session whose handles are all allocated: its
    slot is touched by exactly one array allocation followed by N element stores,
    element k stored k-th, and 0.0 into every element past the initializer list.
    The initializers themselves never touch the array being defined.
   */
  lemma ArrayBindingStoresEachElement(b: Binding, st: State)
    requires b.size > 0 && HandlesAllocated(st)
    ensures var r := LowerBinding(b, st);
      r.out.Ok? ==>
        var uses := SlotUses(r.st.code[|st.code|..], r.out.v);
        && |uses| == b.size + 1
        && uses[0] == Alloca(r.out.v, Array(b.size))
        && forall k :: 0 <= k < b.size ==>
             && uses[k + 1].StoreElem? && uses[k + 1].loc == Slot(r.out.v) && uses[k + 1].index == Int(k)
             && (k >= |b.elems| ==> uses[k + 1].val == Const(0.0))
  {
    var r := LowerBinding(b, st);
    var slot := st.next;
    var alloc := Alloca(slot, Array(b.size));
    var st1 := Emit(Bump(st), alloc);
    assert !Reachable(st1, slot);
    ElemsStoreInOrder(b, slot, 0, st1);
    var se := LowerElems(b, slot, 0, st1);
    if se.out.Ok? {
      assert r == Step(Ok(slot), se.st);
      var after := se.st.code[|st1.code|..];
      assert r.st.code[|st.code|..] == [] + [alloc] + after;
      AllocThenStores(after, alloc, se.out.v, slot, |b.elems|);
    }
  }

  /** One allocation of `slot`, then element stores of `vals` into it from position 0. */
  lemma AllocThenStores(after: seq<Instr>, alloc: Instr, vals: seq<Value>, slot: nat, given: nat)
    requires SlotOf(alloc) == Some(slot)
    requires StoresInOrder(SlotUses(after, slot), vals, slot, 0)
    requires forall k :: 0 <= k < |vals| && k >= given ==> vals[k] == Const(0.0)
    ensures var uses := SlotUses([] + [alloc] + after, slot);
      && |uses| == |vals| + 1
      && uses[0] == alloc
      && forall k :: 0 <= k < |vals| ==>
           && uses[k + 1].StoreElem? && uses[k + 1].loc == Slot(slot) && uses[k + 1].index == Int(k)
           && (k >= given ==> uses[k + 1].val == Const(0.0))
  {
    UsesAfterUntouched([], alloc, after, slot);
    var uses := SlotUses([] + [alloc] + after, slot);
    forall k | 0 <= k < |vals|
      ensures && uses[k + 1].StoreElem? && uses[k + 1].loc == Slot(slot) && uses[k + 1].index == Int(k)
              && (k >= given ==> uses[k + 1].val == Const(0.0))
    {
      assert uses[k + 1] == SlotUses(after, slot)[k];
    }
  }

  /**
    Top-level lowering keeps every handle in the environment below the counter, so
    the precondition of `ArrayBindingStoresEachElement` holds in every session that
    starts from an empty environment.
   */
  lemma {:induction false} TopKeepsHandlesAllocated(t: Top, st: State)
    requires HandlesAllocated(st)
    ensures HandlesAllocated(LowerTop(t, st).st)
    decreases t
  {
    match t
    case Seq(first, rest) =>
      var st1 := if first.Some? then LowerTop(first.value, st).st else st;
      if first.Some? { TopKeepsHandlesAllocated(first.value, st); }
      if rest.Some? { TopKeepsHandlesAllocated(rest.value, st1); }
    case Definition(f) =>
      if f.proto.name !in st.funcs {
        var est := EntryState(f, st);
        forall x | x in est.env ensures est.env[x] < est.next {
          if x !in ArgNames(f.proto.params) {
            assert Lookup(est.env, x) == Lookup(st.env, x);
          }
        }
        LowerConfined(f.body, est);
      }
    case Extern(p) =>
    case GlobalVar(name, size) =>
  }
}
