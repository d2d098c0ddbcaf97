/**
  The symbol-environment discipline of the code generator. A successful lowering
  never changes a binding that existed before it; when no for-loop in the node
  binds a variable, it leaves the environment exactly as it found it. Blocks get
  there by writing their saved handles back, which needs their bindings to have
  distinct names; a `not` with a right operand could hide a failed, unrestored
  block, so it is excluded as well (the grammar never builds one).
 */
module Scoping {
  import opened Options
  import opened Ast
  import opened Ir
  import opened Codegen

  /**
    The nodes the theorem speaks of: blocks bind distinct names, `not` has no right
    operand, and, unless `loops` is set, no for-loop initializer is a binding. Only
    the children the lowering actually visits are constrained.
   */
  predicate Scoped(e: Expr, loops: bool)
    decreases e, 1
  {
    match e
    case Number(_) => true
    case Variable(_, index, isArray) => isArray && index.Some? ==> Scoped(index.value, loops)
    case Binary(_, lhs, rhs) => Scoped(lhs, loops) && Scoped(rhs, loops)
    case Boolean(op, lhs, right) => Scoped(lhs, loops) && (right.Some? ==> op != 'N' && Scoped(right.value, loops))
    case Call(_, args) => forall i :: 0 <= i < |args| ==> Scoped(args[i], loops)
    case If(c, t, el) => Scoped(c, loops) && Scoped(t, loops) && (el.Some? ==> Scoped(el.value, loops))
    case Block(defs, stmts) =>
      && DistinctNames(defs)
      && (forall i :: 0 <= i < |defs| ==> BindingScoped(defs[i], loops))
      && (forall i :: 0 <= i < |stmts| ==> Scoped(stmts[i], loops))
    case Assign(a) => AssignScoped(a, loops)
    case For(init, c, step, body) =>
      && (match init
          case InitBinding(b) => loops && BindingScoped(b, loops)
          case InitExpr(x) => Scoped(x, loops))
      && Scoped(c, loops) && AssignScoped(step, loops) && Scoped(body, loops)
  }

  predicate BindingScoped(b: Binding, loops: bool)
    decreases b, 0
  {
    && (b.size <= 0 && b.init.Some? ==> Scoped(b.init.value, loops))
    && (forall i :: 0 <= i < |b.elems| && i < b.size ==> Scoped(b.elems[i], loops))
  }

  predicate AssignScoped(a: Assignment, loops: bool)
    decreases a, 0
  {
    Scoped(a.val, loops) && (a.index.Some? ==> Scoped(a.index.value, loops))
  }

  /** Every binding of `env` is still there, unchanged, in `env'`. */
  ghost predicate Keeps(env: map<string, nat>, env': map<string, nat>) {
    forall x :: x in env ==> x in env' && env'[x] == env[x]
  }

  /** What a successful lowering promises about the environment. */
  ghost predicate ScopeKept<T>(st: State, r: Step<T>, loops: bool) {
    r.out.Ok? ==> Keeps(st.env, r.st.env) && (!loops ==> r.st.env == st.env)
  }

  lemma KeepsTrans(a: map<string, nat>, b: map<string, nat>, c: map<string, nat>)
    requires Keeps(a, b) && Keeps(b, c)
    ensures Keeps(a, c)
  {
  }

  lemma LookupExtensional(a: map<string, nat>, b: map<string, nat>)
    requires forall x :: Lookup(a, x) == Lookup(b, x)
    ensures a == b
  {
    assert a.Keys == b.Keys by {
      forall x | x in a ensures x in b { assert Lookup(a, x).Some?; }
      forall x | x in b ensures x in a { assert Lookup(b, x).Some?; }
    }
    forall x | x in a ensures a[x] == b[x] { assert Lookup(a, x) == Lookup(b, x); }
  }

  /**
    Writing saved handles back under distinct names gives each name its saved
    handle and leaves every other name alone.
   */
  lemma {:induction false} RestoreWritesBack(env: map<string, nat>, names: seq<string>, saved: seq<Option<nat>>)
    requires |names| == |saved|
    requires forall i, j :: 0 <= i < j < |names| ==> names[i] != names[j]
    ensures forall i :: 0 <= i < |names| ==> Lookup(Restore(env, names, saved), names[i]) == saved[i]
    ensures forall x :: x !in names ==> Lookup(Restore(env, names, saved), x) == Lookup(env, x)
    decreases |names|
  {
    if |names| > 0 {
      var env1 := Put(env, names[0], saved[0]);
      RestoreWritesBack(env1, names[1..], saved[1..]);
      assert Restore(env, names, saved) == Restore(env1, names[1..], saved[1..]);
      forall i | 0 <= i < |names|
        ensures Lookup(Restore(env, names, saved), names[i]) == saved[i]
      {
        if i == 0 {
          assert names[0] !in names[1..] by {
            forall k | 0 <= k < |names[1..]| ensures names[1..][k] != names[0] { assert names[1..][k] == names[k + 1]; }
          }
        } else {
          assert names[1..][i - 1] == names[i];
        }
      }
      forall x | x !in names
        ensures Lookup(Restore(env, names, saved), x) == Lookup(env, x)
      {
        assert x != names[0];
        assert x !in names[1..] by {
          forall k | 0 <= k < |names[1..]| ensures names[1..][k] != x { assert names[1..][k] == names[k + 1]; }
        }
      }
    }
  }

  /**
    Scoping theorem: a successful lowering of a scoped expression keeps every
    existing binding, and changes nothing at all when no for-loop inside binds a
    variable.
   */
  lemma {:induction false} LowerKeepsScope(e: Expr, st: State, loops: bool)
    requires Scoped(e, loops)
    ensures ScopeKept(st, Lower(e, st), loops)
    decreases e, 2
  {
    match e
    case Number(_) =>
    case Variable(_, _, _) => VariableKeepsScope(e, st, loops);
    case Binary(_, _, _) => BinaryKeepsScope(e, st, loops);
    case Boolean(_, _, _) => BooleanKeepsScope(e, st, loops);
    case Call(_, _) => CallKeepsScope(e, st, loops);
    case If(_, _, _) => IfKeepsScope(e, st, loops);
    case Block(_, _) => BlockKeepsScope(e, st, loops);
    case Assign(a) => AssignKeepsScope(a, st, loops);
    case For(_, _, _, _) => ForKeepsScope(e, st, loops);
  }

  lemma {:induction false} VariableKeepsScope(e: Expr, st: State, loops: bool)
    requires e.Variable? && Scoped(e, loops)
    ensures ScopeKept(st, LowerVariable(e, st), loops)
    decreases e, 1
  {
    if e.isArray && e.index.Some? {
      LowerKeepsScope(e.index.value, st, loops);
    }
  }

  lemma {:induction false} BinaryKeepsScope(e: Expr, st: State, loops: bool)
    requires e.Binary? && Scoped(e, loops)
    ensures ScopeKept(st, LowerBinary(e, st), loops)
    decreases e, 1
  {
    var sl := Lower(e.lhs, st);
    LowerKeepsScope(e.lhs, st, loops);
    if sl.out.Ok? {
      LowerKeepsScope(e.rhs, sl.st, loops);
      var sr := Lower(e.rhs, sl.st);
      if sr.out.Ok? { KeepsTrans(st.env, sl.st.env, sr.st.env); }
    }
  }

  lemma {:induction false} BooleanKeepsScope(e: Expr, st: State, loops: bool)
    requires e.Boolean? && Scoped(e, loops)
    ensures ScopeKept(st, LowerBoolean(e, st), loops)
    decreases e, 1
  {
    var sl := Lower(e.lhs, st);
    LowerKeepsScope(e.lhs, st, loops);
    if sl.out.Ok? && e.right.Some? {
      LowerKeepsScope(e.right.value, sl.st, loops);
      var sr := Lower(e.right.value, sl.st);
      if sr.out.Ok? { KeepsTrans(st.env, sl.st.env, sr.st.env); }
    }
  }

  lemma {:induction false} CallKeepsScope(e: Expr, st: State, loops: bool)
    requires e.Call? && Scoped(e, loops)
    ensures ScopeKept(st, LowerCall(e, st), loops)
    decreases e, 1
  {
    ArgsKeepScope(e.args, st, loops);
  }

  lemma {:induction false} ArgsKeepScope(args: seq<Expr>, st: State, loops: bool)
    requires forall i :: 0 <= i < |args| ==> Scoped(args[i], loops)
    ensures ScopeKept(st, LowerArgs(args, st), loops)
    decreases args, 0
  {
    if |args| > 0 {
      var s0 := Lower(args[0], st);
      LowerKeepsScope(args[0], st, loops);
      if s0.out.Ok? {
        ArgsKeepScope(args[1..], s0.st, loops);
        var rest := LowerArgs(args[1..], s0.st);
        if rest.out.Ok? { KeepsTrans(st.env, s0.st.env, rest.st.env); }
      }
    }
  }

  lemma {:induction false} IfKeepsScope(e: Expr, st: State, loops: bool)
    requires e.If? && Scoped(e, loops)
    ensures ScopeKept(st, LowerIf(e, st), loops)
    decreases e, 1
  {
    var sc := Lower(e.cond, st);
    LowerKeepsScope(e.cond, st, loops);
    if sc.out.Ok? {
      var thenB := sc.st.next;
      var st1 := Emit(sc.st.(next := thenB + 3), CondBr(sc.out.v, thenB, thenB + 1));
      var st2 := EnterBlock(st1, thenB);
      var stv := Lower(e.thenExp, st2);
      LowerKeepsScope(e.thenExp, st2, loops);
      if stv.out.Ok? {
        KeepsTrans(st.env, sc.st.env, stv.st.env);
        var st3 := EnterBlock(Emit(stv.st, Br(thenB + 2)), thenB + 1);
        if e.elseExp.Some? {
          LowerKeepsScope(e.elseExp.value, st3, loops);
          var sf := Lower(e.elseExp.value, st3);
          if sf.out.Ok? { KeepsTrans(st.env, st3.env, sf.st.env); }
        }
      }
    }
  }

  lemma {:induction false} StmtsKeepScope(stmts: seq<Expr>, st: State, loops: bool)
    requires forall i :: 0 <= i < |stmts| ==> Scoped(stmts[i], loops)
    ensures ScopeKept(st, LowerStmts(stmts, st), loops)
    decreases stmts, 0
  {
    if |stmts| > 0 {
      var s0 := Lower(stmts[0], st);
      LowerKeepsScope(stmts[0], st, loops);
      if s0.out.Ok? {
        StmtsKeepScope(stmts[1..], s0.st, loops);
        var rest := LowerStmts(stmts[1..], s0.st);
        if rest.out.Ok? { KeepsTrans(st.env, s0.st.env, rest.st.env); }
      }
    }
  }

  lemma {:induction false} ElemsKeepScope(b: Binding, slot: nat, i: nat, st: State, loops: bool)
    requires i <= b.size && BindingScoped(b, loops)
    ensures ScopeKept(st, LowerElems(b, slot, i, st), loops)
    decreases b, 0, b.size - i
  {
    if i < b.size {
      var sv := if i < |b.elems| then Lower(b.elems[i], st) else Step(Ok(Const(0.0)), st);
      if i < |b.elems| { LowerKeepsScope(b.elems[i], st, loops); }
      if sv.out.Ok? {
        var st1 := Emit(sv.st, StoreElem(sv.out.v, Slot(slot), Int(i)));
        ElemsKeepScope(b, slot, i + 1, st1, loops);
        var rest := LowerElems(b, slot, i + 1, st1);
        if rest.out.Ok? { KeepsTrans(st.env, st1.env, rest.st.env); }
      }
    }
  }

  /** A binding allocates and initialises its slot but does not install it. */
  lemma {:induction false} BindingKeepsScope(b: Binding, st: State, loops: bool)
    requires BindingScoped(b, loops)
    ensures ScopeKept(st, LowerBinding(b, st), loops)
    decreases b, 1
  {
    var slot := st.next;
    if b.size > 0 {
      var st1 := Emit(Bump(st), Alloca(slot, Array(b.size)));
      ElemsKeepScope(b, slot, 0, st1, loops);
    } else if b.init.Some? {
      var st1 := Emit(Bump(st), Alloca(slot, Scalar));
      LowerKeepsScope(b.init.value, st1, loops);
    }
  }

  /**
    What lowering the bindings `defs` of a block promises when it succeeds, from
    environment `env` with fresh ids from `next` on, yielding the saved handles
    `saved` and the environment `env'`: names the block does not bind keep their
    handles; each saved handle is the name's handle before the block; every bound
    name ends up visible, bound to a slot allocated by the block. Without loop
    bindings, the saved handles are exactly the pre-block lookups and nothing else
    in the environment moves.
   */
  ghost predicate DefsKept(defs: seq<Binding>, env: map<string, nat>, next: nat,
                           saved: seq<Option<nat>>, env': map<string, nat>, loops: bool) {
    && |saved| == |defs|
    && (forall x :: x in env && x !in Names(defs) ==> x in env' && env'[x] == env[x])
    && (forall i :: 0 <= i < |defs| && defs[i].name in env ==> saved[i] == Some(env[defs[i].name]))
    && (forall i :: 0 <= i < |defs| ==> defs[i].name in env' && env'[defs[i].name] >= next)
    && (!loops ==>
          && (forall i :: 0 <= i < |defs| ==> saved[i] == Lookup(env, defs[i].name))
          && (forall x :: x !in Names(defs) ==> Lookup(env', x) == Lookup(env, x)))
  }

  /**
    One more binding in front: if the first binding kept the environment and
    installed a fresh slot `v`, the promise for the rest extends to the whole list.
   */
  lemma DefsKeptCons(d: Binding, tail: seq<Binding>, env: map<string, nat>, next: nat,
                     envB: map<string, nat>, v: nat, next1: nat,
                     saved: seq<Option<nat>>, env': map<string, nat>, loops: bool)
    requires DistinctNames([d] + tail)
    requires Keeps(env, envB) && (!loops ==> envB == env)
    requires v >= next && next1 >= next
    requires DefsKept(tail, envB[d.name := v], next1, saved, env', loops)
    ensures DefsKept([d] + tail, env, next, [Lookup(envB, d.name)] + saved, env', loops)
  {
    var defs := [d] + tail;
    var env1 := envB[d.name := v];
    var saved' := [Lookup(envB, d.name)] + saved;
    assert d.name !in Names(tail) by {
      forall k | 0 <= k < |tail| ensures Names(tail)[k] != d.name { assert defs[k + 1].name != defs[0].name; }
    }
    assert env'[d.name] == v;
    forall x | x in env && x !in Names(defs)
      ensures x in env' && env'[x] == env[x]
    {
      assert x != defs[0].name;
      assert x !in Names(tail) by {
        forall k | 0 <= k < |tail| ensures Names(tail)[k] != x { assert Names(defs)[k + 1] == Names(tail)[k]; }
      }
    }
    forall i | 0 <= i < |defs| && defs[i].name in env
      ensures saved'[i] == Some(env[defs[i].name])
    {
      if i > 0 {
        assert defs[i].name != d.name;
        assert tail[i - 1] == defs[i];
      }
    }
    forall i | 0 <= i < |defs|
      ensures defs[i].name in env' && env'[defs[i].name] >= next
    {
      if i > 0 { assert tail[i - 1] == defs[i]; }
    }
    if !loops {
      forall i | 0 <= i < |defs|
        ensures saved'[i] == Lookup(env, defs[i].name)
      {
        if i > 0 {
          assert defs[i].name != d.name;
          assert tail[i - 1] == defs[i];
        }
      }
      forall x | x !in Names(defs)
        ensures Lookup(env', x) == Lookup(env, x)
      {
        assert x != defs[0].name;
        assert x !in Names(tail) by {
          forall k | 0 <= k < |tail| ensures Names(tail)[k] != x { assert Names(defs)[k + 1] == Names(tail)[k]; }
        }
      }
    }
  }

  /** A binding list is its head before its tail, and the tail keeps the list's side conditions. */
  lemma DefsTail(defs: seq<Binding>, loops: bool)
    requires |defs| > 0 && DistinctNames(defs)
    requires forall i :: 0 <= i < |defs| ==> BindingScoped(defs[i], loops)
    ensures defs == [defs[0]] + defs[1..] && DistinctNames(defs[1..])
    ensures forall i :: 0 <= i < |defs[1..]| ==> BindingScoped(defs[1..][i], loops)
  {
    assert forall i :: 0 <= i < |defs[1..]| ==> defs[1..][i] == defs[i + 1];
  }

  /** The bindings of a block with distinct names keep the promise `DefsKept` states. */
  lemma {:induction false} DefsKeepScope(defs: seq<Binding>, st: State, loops: bool)
    requires DistinctNames(defs)
    requires forall i :: 0 <= i < |defs| ==> BindingScoped(defs[i], loops)
    ensures var r := LowerDefs(defs, st);
      r.out.Ok? ==> DefsKept(defs, st.env, st.next, r.out.v, r.st.env, loops)
    decreases defs, 0
  {
    if |defs| > 0 {
      var d := defs[0];
      var sb := LowerBinding(d, st);
      BindingKeepsScope(d, st, loops);
      if sb.out.Ok? {
        var st1 := sb.st.(env := sb.st.env[d.name := sb.out.v]);
        var tail := defs[1..];
        DefsTail(defs, loops);
        DefsKeepScope(tail, st1, loops);
        var rest := LowerDefs(tail, st1);
        if rest.out.Ok? {
          assert LowerDefs(defs, st) == Step(Ok([Lookup(sb.st.env, d.name)] + rest.out.v), rest.st);
          DefsKeptCons(d, tail, st.env, st.next, sb.st.env, sb.out.v, st1.next, rest.out.v, rest.st.env, loops);
        }
      }
    }
  }

  lemma {:induction false} BlockKeepsScope(e: Expr, st: State, loops: bool)
    requires e.Block? && Scoped(e, loops)
    ensures ScopeKept(st, LowerBlock(e, st), loops)
    decreases e, 1
  {
    var sd := LowerDefs(e.defs, st);
    DefsKeepScope(e.defs, st, loops);
    if sd.out.Ok? {
      var ss := LowerStmts(e.stmts, sd.st);
      StmtsKeepScope(e.stmts, sd.st, loops);
      if ss.out.Ok? {
        var names := Names(e.defs);
        var fin := Restore(ss.st.env, names, sd.out.v);
        RestoreWritesBack(ss.st.env, names, sd.out.v);
        forall x | x in st.env ensures x in fin && fin[x] == st.env[x] {
          if x in names {
            var i :| 0 <= i < |names| && names[i] == x;
            assert Lookup(fin, x) == sd.out.v[i];
          } else {
            assert Lookup(fin, x) == Lookup(ss.st.env, x);
          }
        }
        if !loops {
          forall x ensures Lookup(fin, x) == Lookup(st.env, x) {
            if x in names {
              var i :| 0 <= i < |names| && names[i] == x;
              assert Lookup(fin, x) == sd.out.v[i];
            } else {
              assert Lookup(fin, x) == Lookup(ss.st.env, x);
            }
          }
          LookupExtensional(fin, st.env);
        }
      }
    }
  }

  lemma {:induction false} AssignKeepsScope(a: Assignment, st: State, loops: bool)
    requires AssignScoped(a, loops)
    ensures ScopeKept(st, LowerAssign(a, st), loops)
    decreases a, 1
  {
    var sv := Lower(a.val, st);
    LowerKeepsScope(a.val, st, loops);
    if sv.out.Ok? && a.index.Some? {
      LowerKeepsScope(a.index.value, sv.st, loops);
      var si := Lower(a.index.value, sv.st);
      if si.out.Ok? { KeepsTrans(st.env, sv.st.env, si.st.env); }
    }
  }

  /**
    The part of a for-loop after its initializer keeps every binding other than the
    loop variable's; writes a real shadowed handle back; and, with no loop bindings
    inside, ends with the environment it started from, the shadowed handle written
    back if there is one.
   */
  lemma {:induction false} LoopKeepsScope(e: Expr, blocks: LoopBlocks, st: State, name: string, shadowed: Option<nat>, loops: bool)
    requires e.For? && Scoped(e.cond, loops) && Scoped(e.body, loops) && AssignScoped(e.step, loops)
    ensures var r := LowerLoop(e, blocks, st, name, shadowed);
      r.out.Ok? ==>
        && (forall x :: x in st.env && x != name ==> x in r.st.env && r.st.env[x] == st.env[x])
        && (shadowed.Some? ==> name in r.st.env && r.st.env[name] == shadowed.value)
        && (shadowed.None? ==> Keeps(st.env, r.st.env))
        && (!loops ==> r.st.env == if shadowed.Some? then st.env[name := shadowed.value] else st.env)
    decreases e, 0
  {
    var st0 := EnterBlock(Emit(st, Br(blocks.cond)), blocks.cond);
    var sc := Lower(e.cond, st0);
    LowerKeepsScope(e.cond, st0, loops);
    if sc.out.Ok? {
      var st1 := EnterBlock(Emit(sc.st, CondBr(sc.out.v, blocks.body, blocks.after)), blocks.body);
      var sb := Lower(e.body, st1);
      LowerKeepsScope(e.body, st1, loops);
      if sb.out.Ok? {
        var ss := LowerAssign(e.step, sb.st);
        AssignKeepsScope(e.step, sb.st, loops);
        if ss.out.Ok? {
          KeepsTrans(st.env, sc.st.env, sb.st.env);
          KeepsTrans(st.env, sb.st.env, ss.st.env);
        }
      }
    }
  }

  /**
    A loop variable bound over `envB` and written back afterwards: every binding the
    environment had before the initializer survives the loop.
   */
  lemma LoopKeepsOuter(env: map<string, nat>, envB: map<string, nat>, name: string, v: nat, fin: map<string, nat>)
    requires Keeps(env, envB)
    requires forall x :: x in envB[name := v] && x != name ==> x in fin && fin[x] == envB[name := v][x]
    requires name in envB ==> name in fin && fin[name] == envB[name]
    ensures Keeps(env, fin)
  {
  }

  lemma {:induction false} ForKeepsScope(e: Expr, st: State, loops: bool)
    requires e.For? && Scoped(e, loops)
    ensures ScopeKept(st, LowerFor(e, st), loops)
    decreases e, 1
  {
    var initB := st.next;
    var st1 := Emit(Bump(st), Br(initB));
    var blocks := LoopBlocks(initB, st1.next, st1.next + 1, st1.next + 2);
    var st2 := EnterBlock(st1.(next := st1.next + 3), initB);
    match e.init
    case InitBinding(b) =>
      var sb := LowerBinding(b, st2);
      BindingKeepsScope(b, st2, loops);
      if sb.out.Ok? {
        var shadowed := Lookup(sb.st.env, b.name);
        var st3 := sb.st.(env := sb.st.env[b.name := sb.out.v]);
        assert LowerFor(e, st) == LowerLoop(e, blocks, st3, b.name, shadowed);
        LoopKeepsScope(e, blocks, st3, b.name, shadowed, loops);
        var sl := LowerLoop(e, blocks, st3, b.name, shadowed);
        if sl.out.Ok? { LoopKeepsOuter(st.env, sb.st.env, b.name, sb.out.v, sl.st.env); }
      }
    case InitExpr(x) =>
      if x.Assign? {
        var sa := LowerAssign(x.assignment, st2);
        AssignKeepsScope(x.assignment, st2, loops);
        if sa.out.Ok? {
          assert LowerFor(e, st) == LowerLoop(e, blocks, sa.st, "", None);
          LoopKeepsScope(e, blocks, sa.st, "", None, loops);
          var sl := LowerLoop(e, blocks, sa.st, "", None);
          if sl.out.Ok? { KeepsTrans(st.env, sa.st.env, sl.st.env); }
        }
      }
  }

  /**
    A for-loop that binds its variable: if the name had a handle before the loop,
    the loop leaves the environment exactly as it found it; if it had none, the
    loop variable stays bound after the loop, to the slot the loop allocated for it
    (the one after the loop's four block ids).
   */
  lemma {:induction false} LoopVariableAfterLoop(e: Expr, st: State)
    requires e.For? && e.init.InitBinding?
    requires BindingScoped(e.init.binding, false) && Scoped(e.cond, false) && AssignScoped(e.step, false) && Scoped(e.body, false)
    ensures var r := Lower(e, st);
      var name := e.init.binding.name;
      r.out.Ok? ==>
        && (name in st.env ==> r.st.env == st.env)
        && (name !in st.env ==> r.st.env == st.env[name := st.next + 4])
  {
    var b := e.init.binding;
    var st1 := Emit(Bump(st), Br(st.next));
    var blocks := LoopBlocks(st.next, st1.next, st1.next + 1, st1.next + 2);
    var st2 := EnterBlock(st1.(next := st1.next + 3), st.next);
    var sb := LowerBinding(b, st2);
    BindingKeepsScope(b, st2, false);
    assert Lower(e, st) == LowerFor(e, st);
    if sb.out.Ok? {
      var shadowed := Lookup(sb.st.env, b.name);
      var st3 := sb.st.(env := sb.st.env[b.name := sb.out.v]);
      assert LowerFor(e, st) == LowerLoop(e, blocks, st3, b.name, shadowed);
      LoopKeepsScope(e, blocks, st3, b.name, shadowed, false);
      assert st3.env == st.env[b.name := st.next + 4];
      if b.name in st.env {
        assert st.env[b.name := st.next + 4][b.name := st.env[b.name]] == st.env;
      }
    }
  }

  /** A scalar binding whose initializer lowers: one slot, then the store of the value. */
  lemma ScalarBinding(b: Binding, st: State)
    requires b.size == 0 && b.init.Some?
    ensures var st1 := Emit(Bump(st), Alloca(st.next, Scalar));
      var sv := Lower(b.init.value, st1);
      sv.out.Ok? ==> LowerBinding(b, st) == Step(Ok(st.next), Emit(sv.st, Store(sv.out.v, Slot(st.next))))
  {
  }

  /** `var name = c` for a literal `c`: a scalar slot and one store into it. */
  lemma LiteralBinding(b: Binding, c: real, st: State)
    requires b.size == 0 && b.init == Some(Number(c))
    ensures LowerBinding(b, st)
         == Step(Ok(st.next), st.(next := st.next + 1, code := st.code + [Alloca(st.next, Scalar), Store(Const(c), Slot(st.next))]))
  {
    var st1 := Emit(Bump(st), Alloca(st.next, Scalar));
    ScalarBinding(b, st);
    assert Lower(b.init.value, st1) == Step(Ok(Const(c)), st1);
    assert st1.code + [Store(Const(c), Slot(st.next))] == st.code + [Alloca(st.next, Scalar), Store(Const(c), Slot(st.next))];
  }

  /** A block's bindings after one more: the first binding's saved handle, then the rest's. */
  lemma {:induction false} DefsCons(d: Binding, rest: seq<Binding>, st: State)
    ensures var sb := LowerBinding(d, st);
      sb.out.Ok? ==>
        var st1 := sb.st.(env := sb.st.env[d.name := sb.out.v]);
        var sr := LowerDefs(rest, st1);
        sr.out.Ok? ==> LowerDefs([d] + rest, st) == Step(Ok([Lookup(sb.st.env, d.name)] + sr.out.v), sr.st)
  {
    assert ([d] + rest)[0] == d;
    assert ([d] + rest)[1..] == rest;
  }

  /**
    Two bindings of one name in a block: the block writes the saved handles back in
    declaration order, so the second write-back reinstates the first inner slot and
    the name stays bound after the block.
   */
  lemma {:induction false} RepeatedNameLeaksFromBlock(st: State)
    requires "x" !in st.env
    ensures var r := Lower(Block([Binding("x", Some(Number(1.0)), 0, []), Binding("x", Some(Number(2.0)), 0, [])],
                                 [Variable("x", None, false)]), st);
      r.out.Ok? && "x" in r.st.env && r.st.env["x"] == st.next
  {
    var b1 := Binding("x", Some(Number(1.0)), 0, []);
    var b2 := Binding("x", Some(Number(2.0)), 0, []);
    var x := Variable("x", None, false);
    LiteralBinding(b1, 1.0, st);
    var s1 := LowerBinding(b1, st).st;
    var t1 := s1.(env := s1.env["x" := st.next]);
    LiteralBinding(b2, 2.0, t1);
    var s2 := LowerBinding(b2, t1).st;
    var t2 := s2.(env := s2.env["x" := st.next + 1]);
    assert LowerDefs([], t2) == Step(Ok([]), t2);
    DefsCons(b2, [], t1);
    assert [b2] + [] == [b2];
    assert Lookup(s2.env, "x") == Some(st.next);
    assert [Some(st.next)] + [] == [Some(st.next)];
    assert LowerDefs([b2], t1) == Step(Ok([Some(st.next)]), t2);
    DefsCons(b1, [b2], st);
    assert [b1] + [b2] == [b1, b2];
    assert Lookup(s1.env, "x") == None;
    assert [None] + [Some(st.next)] == [None, Some(st.next)];
    var sd := LowerDefs([b1, b2], st);
    assert sd == Step(Ok([None, Some(st.next)]), t2);
    var sv := Lower(x, t2);
    assert sv == LowerVariable(x, t2);
    assert sv.out.Ok? && sv.st.env == t2.env;
    assert [x][1..] == [];
    assert LowerStmts([], sv.st) == Step(Ok(None), sv.st);
    assert LowerStmts([x], t2) == Step(Ok(Some(sv.out.v)), sv.st);
    assert Names([b1, b2]) == ["x", "x"];
    var fin := Restore(sv.st.env, ["x", "x"], [None, Some(st.next)]);
    assert fin == Restore(Put(Put(sv.st.env, "x", None), "x", Some(st.next)), [], []);
    var e := Block([b1, b2], [x]);
    assert LowerBlock(e, st) == Step(Ok(sv.out.v), sv.st.(env := fin));
    assert Lower(e, st) == LowerBlock(e, st);
  }

  /**
    A block whose statements fail does not write its saved handles back: the
    binding it installed is still in the environment.
   */
  lemma {:induction false} FailedBlockKeepsItsBindings(st: State)
    requires "x" !in st.env && "g" !in st.funcs
    ensures var r := Lower(Block([Binding("x", Some(Number(1.0)), 0, [])], [Call("g", [])]), st);
      r.out.NoValue? && "x" in r.st.env && r.st.env["x"] == st.next
  {
    var b := Binding("x", Some(Number(1.0)), 0, []);
    var call := Call("g", []);
    LiteralBinding(b, 1.0, st);
    var s1 := LowerBinding(b, st).st;
    var t1 := s1.(env := s1.env["x" := st.next]);
    assert LowerDefs([], t1) == Step(Ok([]), t1);
    DefsCons(b, [], st);
    assert [b] + [] == [b];
    assert Lookup(s1.env, "x") == None;
    assert [Lookup(s1.env, "x")] + [] == [None];
    assert LowerDefs([b], st) == Step(Ok([None]), t1);
    assert Lower(call, t1) == Step(NoValue, t1);
    assert LowerStmts([call], t1) == Step(NoValue, t1);
    var e := Block([b], [call]);
    assert LowerBlock(e, st) == Step(NoValue, t1);
    assert Lower(e, st) == LowerBlock(e, st);
  }
}
