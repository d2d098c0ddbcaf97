/** Properties of top-level lowering: definitions, their rollback, externs and sequencing. */
module DeclFacts {
  import opened Options
  import opened Ast
  import opened Ir
  import opened Codegen
  import opened TopLevel
  import opened Naming

  /**
    Defining a name the module already holds fails and changes nothing: the
    existing function, with or without a body, stays as it was.
   */
  lemma DefinitionOfTakenNameFails(f: Func, st: State)
    requires f.proto.name in st.funcs
    ensures LowerFunction(f, st) == Step(NoValue, st)
  {
  }

  /**
    A definition of a fresh name ends in one of three ways. A body that lowers adds
    the function, with its body, to the table and returns its value. A body that
    fails leaves the function table exactly as it was before the definition and
    logs the removal. A body that crashes crashes the definition.
   */
  lemma DefinitionOutcome(f: Func, st: State)
    requires f.proto.name !in st.funcs
    ensures var r := LowerFunction(f, st);
      var sb := Lower(f.body, EntryState(f, st));
      && r.st.globals == st.globals
      && (sb.out.Ok? ==>
            && r.out == Ok(FnRef(f.proto.name))
            && r.st.funcs == st.funcs[f.proto.name := FnInfo(f.proto.params, true)]
            && r.st.code == sb.st.code + [Ret(sb.out.v)])
      && (sb.out.NoValue? ==>
            && r.out == NoValue
            && r.st.funcs == st.funcs
            && r.st.code == sb.st.code + [Erase(f.proto.name)])
      && (sb.out.Crash? ==> r.out.Crash?)
  {
    var sb := Lower(f.body, EntryState(f, st));
    assert sb.st.funcs == EntryState(f, st).funcs;
    if sb.out.NoValue? {
      assert st.funcs[f.proto.name := FnInfo(f.proto.params, true)] - {f.proto.name} == st.funcs;
    }
  }

  /** An `extern` declaration takes its name: a later definition of that name fails and changes nothing. */
  lemma ExternBlocksDefinition(p: Proto, body: Expr, st: State)
    ensures var st' := LowerProto(p, st).st;
      LowerFunction(Func(p.(emit := false), body), st') == Step(NoValue, st')
  {
  }

  /**
    A sequence lowers its rest after its first element whatever became of it,
    unless the first element crashed; the sequence itself never yields a value.
   */
  lemma SequenceContinuesAfterFailure(first: Top, rest: Top, st: State)
    ensures var sf := LowerTop(first, st);
      var r := LowerTop(Seq(Some(first), Some(rest)), st);
      && (sf.out.Crash? ==> r.out.Crash?)
      && (!sf.out.Crash? ==>
            var sr := LowerTop(rest, sf.st);
            r.st == sr.st && (r.out.Crash? <==> sr.out.Crash?) && !r.out.Ok?)
  {
  }

  /** The last element of a well-built program chain, `Seq(null, null)`, does nothing. */
  lemma EmptySequenceDoesNothing(st: State)
    ensures LowerTop(Seq(None, None), st) == Step(NoValue, st)
  {
  }

  /** A sequence with a first element but no rest dereferences the missing rest. */
  lemma SequenceWithoutRestCrashes(first: Top, st: State)
    ensures LowerTop(Seq(Some(first), None), st).out.Crash?
  {
  }

  /**
    A global declared under a fresh name is what that name then resolves to, with
    the shape its size gives: after `global a[n]` with n > 0 the read `a[i]` loads
    element i of the global; after `global g` the read `g[i]` crashes, as any
    element read of scalar storage does.
   */
  lemma GlobalThenElementRead(name: string, size: int, i: real, st: State)
    requires name !in st.env && name !in st.globals
    ensures var g := LowerGlobal(name, size, st).st;
      var r := Lower(Variable(name, Some(Number(i)), true), g);
      && Resolve(g, name) == Some(Global(name))
      && g.globals[name] == ShapeOf(size)
      && (size > 0 ==>
            && r.out == Ok(Reg(g.next + 1))
            && r.st.code == g.code + [ToInt(g.next, Const(i)), LoadElem(g.next + 1, Global(name), Reg(g.next))])
      && (size <= 0 ==> r.out == Crash && r.st.code == g.code + [ToInt(g.next, Const(i))])
  {
    var g := LowerGlobal(name, size, st).st;
    assert Lower(Number(i), g) == Step(Ok(Const(i)), g);
    assert Lower(Variable(name, Some(Number(i)), true), g) == LowerVariable(Variable(name, Some(Number(i)), true), g);
  }

  /**
    `def f(x, x) ...`: the second argument is renamed, so inside the body `x` is the
    first parameter. Its slot, the one after the entry block, is where the first
    incoming argument is stored.
   */
  lemma RepeatedParameterNameIsFirst(f: Func, x: string, st: State)
    requires f.proto.name !in st.funcs && f.proto.params == [x, x]
    ensures var st' := EntryState(f, st);
      && x in st'.env && st'.env[x] == st.next + 1
      && Store(Arg(0), Slot(st.next + 1)) in st'.code
  {
    EntrySlots(f, st);
    ArgNamesKeepOrSuffix(f.proto.params);
    assert ArgNames(f.proto.params)[..0] == [];
    var sp := LowerProto(f.proto, st);
    var st1 := EnterBlock(Bump(sp.st), sp.st.next);
    var st2 := st1.(funcs := st1.funcs[f.proto.name := FnInfo(f.proto.params, true)]);
    var slot := st2.next;
    var b1 := Emit(Emit(Bump(st2), Alloca(slot, Scalar)), Store(Arg(0), Slot(slot)));
    assert b1.code[|b1.code| - 1] == Store(Arg(0), Slot(st.next + 1));
  }

  /**
    `def f(x, x, x1) ...`: the second argument is renamed `x1`, which takes the name
    of the third, so the third becomes `x12`. Inside the body `x1` denotes the
    second parameter.
   */
  lemma GeneratedNameTakesLaterParameter(f: Func, st: State)
    requires f.proto.name !in st.funcs && f.proto.params == ["x", "x", "x1"]
    ensures var st' := EntryState(f, st);
      && "x" in st'.env && st'.env["x"] == st.next + 1
      && "x1" in st'.env && st'.env["x1"] == st.next + 2
      && "x12" in st'.env && st'.env["x12"] == st.next + 3
  {
    var params := f.proto.params;
    RenamedNameIsRenamedAgain();
    EntrySlots(f, st);
    assert ArgNames(params)[0] == "x" && ArgNames(params)[1] == "x1" && ArgNames(params)[2] == "x12";
  }

  /**
    `def f(y) z` followed by `def g() y`, with `z` unknown: the body of `f` fails and
    `f` is erased, but `y` stays bound to the slot `f` allocated for it, and the body
    of `g` loads from that slot.
   */
  lemma ErasedParameterStaysBound(st: State)
    requires "f" !in st.funcs && "g" !in st.funcs
    requires "z" !in st.env && "z" !in st.globals
    ensures var f := Func(Proto("f", ["y"], false), Variable("z", None, false));
      var g := Func(Proto("g", [], false), Variable("y", None, false));
      var r1 := LowerFunction(f, st);
      var r2 := LowerFunction(g, r1.st);
      && r1.out == NoValue && "f" !in r1.st.funcs
      && r2.out == Ok(FnRef("g"))
      && |r2.st.code| >= 2
      && r2.st.code[|r2.st.code| - 2..] == [Load(st.next + 3, Slot(st.next + 1)), Ret(Reg(st.next + 3))]
  {
    var f := Func(Proto("f", ["y"], false), Variable("z", None, false));
    FailedDefinitionKeepsParameter(st);
    ParameterlessRead("g", "y", LowerFunction(f, st).st);
  }

  /** `def f(y) z`, with `z` unknown, is erased and leaves `y` bound to the slot after its entry block. */
  lemma FailedDefinitionKeepsParameter(st: State)
    requires "f" !in st.funcs
    requires "z" !in st.env && "z" !in st.globals
    ensures var r := LowerFunction(Func(Proto("f", ["y"], false), Variable("z", None, false)), st);
      && r.out == NoValue && "f" !in r.st.funcs
      && r.st.code[|r.st.code| - 1] == Erase("f")
      && "y" in r.st.env && r.st.env["y"] == st.next + 1
      && r.st.next == st.next + 2 && r.st.funcs == st.funcs
  {
    var f := Func(Proto("f", ["y"], false), Variable("z", None, false));
    assert ArgNames(["y"]) == ["y"];
    EntrySlots(f, st);
    var e := EntryState(f, st);
    assert e.next == st.next + 2;
    assert Lower(f.body, e) == Step(NoValue, e);
    var r := LowerFunction(f, st);
    assert r == Step(NoValue, Emit(e, Erase("f")).(funcs := e.funcs - {"f"}));
    assert e.funcs - {"f"} == st.funcs;
  }

  /** A function with no parameters whose body reads a bound name loads from the name's slot and returns the value. */
  lemma ParameterlessRead(g: string, y: string, s: State)
    requires g !in s.funcs && y in s.env
    ensures var r := LowerFunction(Func(Proto(g, [], false), Variable(y, None, false)), s);
      && r.out == Ok(FnRef(g))
      && |r.st.code| >= 2
      && r.st.code[|r.st.code| - 2..] == [Load(s.next + 1, Slot(s.env[y])), Ret(Reg(s.next + 1))]
  {
    var e := EntryState(Func(Proto(g, [], false), Variable(y, None, false)), s);
    assert Lookup(e.env, y) == Lookup(s.env, y);
    assert e.next == s.next + 1;
    assert Lower(Variable(y, None, false), e) == Step(Ok(Reg(s.next + 1)), Emit(Bump(e), Load(s.next + 1, Slot(s.env[y]))));
  }
}
