/**
  Declaration lowering (`PrototypeAST`, `FunctionAST`, `VarGlobalAST` and `SeqAST`
  codegen in driver.cpp): the top-level nodes that change the module's tables.
 */
module TopLevel {
  import opened Options
  import opened Ast
  import opened Ir
  import opened Codegen
  import opened Naming

  /**
    Declares a function with the prototype's parameters and no body. A name the
    module already holds keeps its entry: the module gives the new declaration a
    different name, under which nothing looks it up.
   */
  function LowerProto(p: Proto, st: State): (r: Step<Value>)
    ensures r.out == Ok(FnRef(p.name))
    ensures Grows(st, r.st) && r.st.env == st.env && r.st.globals == st.globals
    ensures p.name in r.st.funcs
    ensures p.name !in st.funcs ==> r.st.funcs == st.funcs[p.name := FnInfo(p.params, false)]
    ensures p.name in st.funcs ==> r.st.funcs == st.funcs
  {
    var funcs := if p.name in st.funcs then st.funcs else st.funcs[p.name := FnInfo(p.params, false)];
    Step(Ok(FnRef(p.name)), Emit(st, Declare(p.name, p.params)).(funcs := funcs))
  }

  /** No later argument carries the name of argument `j`. */
  predicate LastAt(names: seq<string>, j: nat)
    requires j < |names|
  {
    names[j] !in names[j + 1..]
  }

  /**
    Gives argument `i` and the ones after it a fresh scalar slot each, stores the
    incoming argument into it, and registers the slot under the argument's name.
   */
  function BindParams(names: seq<string>, i: nat, st: State): (st': State)
    requires i <= |names|
    decreases |names| - i
    ensures Extends(st, st')
    ensures st'.next == st.next + (|names| - i)
  {
    if i == |names| then st
    else
      var slot := st.next;
      var st1 := Emit(Emit(Bump(st), Alloca(slot, Scalar)), Store(Arg(i), Slot(slot)));
      BindParams(names, i + 1, st1.(env := st1.env[names[i] := slot]))
  }

  /** Binding a whole argument list: every name gets a fresh slot, every other name keeps its binding. */
  lemma BindAll(names: seq<string>, st: State)
    ensures var st' := BindParams(names, 0, st);
      && Extends(st, st') && st'.next == st.next + |names|
      && (forall x :: x in names ==> x in st'.env && st.next <= st'.env[x] < st'.next)
      && (forall x :: x !in names ==> Lookup(st'.env, x) == Lookup(st.env, x))
  {
    assert names[0..] == names;
    ParamScope(names, 0, st);
  }

  /** Binding arguments `i` onwards binds exactly their names, each to a fresh slot. */
  lemma {:induction false} ParamScope(names: seq<string>, i: nat, st: State)
    requires i <= |names|
    ensures var st' := BindParams(names, i, st);
      && (forall x :: x in names[i..] ==> x in st'.env && st.next <= st'.env[x] < st'.next)
      && (forall x :: x !in names[i..] ==> Lookup(st'.env, x) == Lookup(st.env, x))
    decreases |names| - i
  {
    if i < |names| {
      var slot := st.next;
      var st1 := Emit(Emit(Bump(st), Alloca(slot, Scalar)), Store(Arg(i), Slot(slot)));
      var st2 := st1.(env := st1.env[names[i] := slot]);
      assert names[i..] == [names[i]] + names[i + 1..];
      ParamScope(names, i + 1, st2);
      var st' := BindParams(names, i, st);
      assert st' == BindParams(names, i + 1, st2);
      forall x | x in names[i..] && x !in names[i + 1..] ensures x in st'.env && st.next <= st'.env[x] < st'.next {
        assert Lookup(st'.env, x) == Lookup(st2.env, x);
      }
    }
  }

  /** The last argument carrying a name is bound under it to the slot drawn at its position. */
  lemma {:induction false} ParamSlots(names: seq<string>, i: nat, st: State)
    requires i <= |names|
    ensures var st' := BindParams(names, i, st);
      forall j :: i <= j < |names| && LastAt(names, j) ==> names[j] in st'.env && st'.env[names[j]] == st.next + (j - i)
    decreases |names| - i
  {
    if i < |names| {
      var slot := st.next;
      var st1 := Emit(Emit(Bump(st), Alloca(slot, Scalar)), Store(Arg(i), Slot(slot)));
      var st2 := st1.(env := st1.env[names[i] := slot]);
      ParamSlots(names, i + 1, st2);
      var st' := BindParams(names, i, st);
      assert st' == BindParams(names, i + 1, st2);
      if LastAt(names, i) {
        ParamScope(names, i + 1, st2);
        assert Lookup(st'.env, names[i]) == Lookup(st2.env, names[i]);
      }
    }
  }

  /**
    The state a function body is lowered in: the prototype declared, marked as
    having a body, the cursor in a fresh entry block, and every argument bound
    under its name to a fresh slot. Every parameter name is among the argument
    names. Every other name keeps whatever binding it had: the environment is not
    cleared between functions.
   */
  function EntryState(f: Func, st: State): (st': State)
    requires f.proto.name !in st.funcs
    ensures Grows(st, st') && st'.globals == st.globals
    ensures st'.funcs == st.funcs[f.proto.name := FnInfo(f.proto.params, true)]
    ensures forall x :: x in ArgNames(f.proto.params) ==> x in st'.env && st.next <= st'.env[x] < st'.next
    ensures forall x :: x in f.proto.params ==> x in st'.env && st.next <= st'.env[x] < st'.next
    ensures forall x :: x !in ArgNames(f.proto.params) ==> Lookup(st'.env, x) == Lookup(st.env, x)
  {
    var sp := LowerProto(f.proto, st);
    var entry := sp.st.next;
    var st1 := EnterBlock(Bump(sp.st), entry);
    var st2 := st1.(funcs := st1.funcs[f.proto.name := FnInfo(f.proto.params, true)]);
    BindAll(ArgNames(f.proto.params), st2);
    ParamsAreNamed(f.proto.params);
    BindParams(ArgNames(f.proto.params), 0, st2)
  }

  /**
    In a function's entry state, argument `j` is bound under its name to the `j`-th
    slot drawn after the entry block. The names are distinct, so every argument is
    reachable.
   */
  lemma EntrySlots(f: Func, st: State)
    requires f.proto.name !in st.funcs
    ensures var st' := EntryState(f, st);
      forall j :: 0 <= j < |f.proto.params| ==>
        ArgNames(f.proto.params)[j] in st'.env && st'.env[ArgNames(f.proto.params)[j]] == st.next + 1 + j
  {
    var names := ArgNames(f.proto.params);
    var sp := LowerProto(f.proto, st);
    var st1 := EnterBlock(Bump(sp.st), sp.st.next);
    var st2 := st1.(funcs := st1.funcs[f.proto.name := FnInfo(f.proto.params, true)]);
    ParamSlots(names, 0, st2);
    ArgNamesDistinct(f.proto.params);
    forall j | 0 <= j < |names| ensures LastAt(names, j) {
      forall k | j < k < |names| ensures names[k] != names[j] { }
    }
  }

  /**
    Defines a function. Any function already holding the name, declared or defined,
    makes this fail with the module untouched. Otherwise the body is lowered in the
    entry state; a body that fails takes the function out of the module again.
   */
  function LowerFunction(f: Func, st: State): (r: Step<Value>)
    ensures Grows(st, r.st) && r.st.globals == st.globals
  {
    var name := f.proto.name;
    if name in st.funcs then Step(NoValue, st)
    else
      var sb := Lower(f.body, EntryState(f, st));
      if sb.out.Ok? then Step(Ok(FnRef(name)), Emit(sb.st, Ret(sb.out.v)))
      else if sb.out.Crash? then Abort(sb)
      else Step(NoValue, Emit(sb.st, Erase(name)).(funcs := sb.st.funcs - {name}))
  }

  /** The shape a declared size gives: a positive size is an array, anything else a scalar. */
  function ShapeOf(size: int): (s: Shape)
    ensures s.Array? <==> size > 0
    ensures s.Array? ==> s.len == size
  {
    if size > 0 then Array(size) else Scalar
  }

  /**
    Defines a zero-initialised module-level variable. As with prototypes, a name
    already taken keeps the variable it names.
   */
  function LowerGlobal(name: string, size: int, st: State): (r: Step<Value>)
    ensures r.out == Ok(GlobalRef(name))
    ensures Grows(st, r.st) && r.st.env == st.env && r.st.funcs == st.funcs
    ensures name !in st.globals ==> r.st.globals == st.globals[name := ShapeOf(size)]
    ensures name in st.globals ==> r.st.globals == st.globals
  {
    var globals := if name in st.globals then st.globals else st.globals[name := ShapeOf(size)];
    Step(Ok(GlobalRef(name)), Emit(st, DefineGlobal(name, ShapeOf(size))).(globals := globals))
  }

  /**
    A top-level node. A sequence lowers its first element, ignores how it went, and
    goes on with the rest; it never yields a value. A sequence with a first element
    but no rest dereferences the missing rest.
   */
  function LowerTop(t: Top, st: State): (r: Step<Value>)
    decreases t
    ensures Grows(st, r.st)
  {
    match t
    case Seq(first, rest) =>
      if first.Some? then
        var sf := LowerTop(first.value, st);
        if sf.out.Crash? then Abort(sf)
        else if rest.None? then Step(Crash, sf.st)
        else
          var sr := LowerTop(rest.value, sf.st);
          if sr.out.Crash? then Abort(sr) else Step(NoValue, sr.st)
      else if rest.None? then Step(NoValue, st)
      else
        var sr := LowerTop(rest.value, st);
        if sr.out.Crash? then Abort(sr) else Step(NoValue, sr.st)
    case Definition(f) => LowerFunction(f, st)
    case Extern(p) => LowerProto(p, st)
    case GlobalVar(name, size) => LowerGlobal(name, size, st)
  }
}
