/**
  The abstract intermediate representation the code generator targets, and the
  lowering state threaded through it. LLVM objects are replaced by plain ids drawn
  from one fresh-id counter: stack slots, instruction results and basic blocks.
 */
module Ir {
  import opened Options

  /** An operand: a literal, the result of an earlier instruction, a parameter or a named object. */
  datatype Value =
    | Const(num: real)     // a double constant
    | Int(n: int)          // a 32-bit integer constant (array element positions)
    | Reg(id: nat)         // the result of the instruction that defined `id`
    | Arg(pos: nat)        // the incoming value of a function parameter
    | FnRef(fname: string)
    | GlobalRef(gname: string)

  /** Storage a variable name can resolve to: a stack slot or a module-level variable. */
  datatype Loc = Slot(slot: nat) | Global(gname: string)

  datatype Shape = Scalar | Array(len: nat)

  datatype BinOpcode = FAdd | FSub | FMul | FDiv | FCmpULT | FCmpUEQ

  /** One incoming value of a phi, with the block control arrives from. */
  datatype Incoming = Incoming(val: Value, from: nat)

  /**
    Abstract instructions. `LoadElem` and `StoreElem` address element `index` of
    their storage, at the byte offset `ArrayLayout.ElementOffset` gives.
   */
  datatype Instr =
    | Alloca(slot: nat, shape: Shape)
    | Load(reg: nat, loc: Loc)
    | LoadElem(reg: nat, loc: Loc, index: Value)
    | Store(val: Value, loc: Loc)
    | StoreElem(val: Value, loc: Loc, index: Value)
    | ToInt(reg: nat, val: Value)                 // double to signed 32-bit integer
    | Bin(reg: nat, opcode: BinOpcode, lhs: Value, rhs: Value)
    | And(reg: nat, lhs: Value, rhs: Value)
    | Or(reg: nat, lhs: Value, rhs: Value)
    | Not(reg: nat, val: Value)
    | CallFn(reg: nat, callee: string, args: seq<Value>)
    | Br(target: nat)
    | CondBr(val: Value, onTrue: nat, onFalse: nat)
    | Enter(block: nat)                           // the insertion cursor moves to `block`
    | Phi(reg: nat, incoming: seq<Incoming>)
    | Ret(val: Value)
    | Declare(fname: string, params: seq<string>)
    | Erase(fname: string)                        // a function removed from the module
    | DefineGlobal(gname: string, shape: Shape)

  /** What the module knows of a function: its parameter names and whether it has a body. */
  datatype FnInfo = FnInfo(params: seq<string>, hasBody: bool)

  /**
    The lowering session: the symbol environment (`NamedValues`, where a missing key
    and a null entry both mean "unbound"), the module's global and function tables,
    the fresh-id counter, the block holding the insertion cursor, and the log of
    every instruction emitted so far.
   */
  datatype State = State(
    env: map<string, nat>,
    globals: map<string, Shape>,
    funcs: map<string, FnInfo>,
    next: nat,
    cursor: nat,
    code: seq<Instr>)

  /** The outcome of lowering one node: a value, the source's null result, or a null dereference. */
  datatype Out<+T> = Ok(v: T) | NoValue | Crash

  datatype Step<+T> = Step(out: Out<T>, st: State)

  /** Passes a failed outcome on to the caller, keeping the state reached so far. */
  function Abort<T, U>(s: Step<T>): (r: Step<U>)
    requires !s.out.Ok?
    ensures r.st == s.st && r.out.Crash? == s.out.Crash? && !r.out.Ok?
  {
    Step(if s.out.Crash? then Crash else NoValue, s.st)
  }

  function Emit(st: State, i: Instr): State {
    st.(code := st.code + [i])
  }

  /** Reserves the next fresh id. */
  function Bump(st: State): State {
    st.(next := st.next + 1)
  }

  /** Moves the insertion cursor to `block`. */
  function EnterBlock(st: State, block: nat): State {
    Emit(st, Enter(block)).(cursor := block)
  }

  /** The handle an environment holds for `x`, if any. */
  function Lookup(env: map<string, nat>, x: string): Option<nat> {
    if x in env then Some(env[x]) else None
  }

  /** Writes a saved handle back; writing back a null handle unbinds the name. */
  function Put(env: map<string, nat>, x: string, h: Option<nat>): (env': map<string, nat>)
    ensures Lookup(env', x) == h
    ensures forall y :: y != x ==> Lookup(env', y) == Lookup(env, y)
  {
    if h.Some? then env[x := h.value] else env - {x}
  }

  /** Writes the saved handles back one after the other, in declaration order. */
  function Restore(env: map<string, nat>, names: seq<string>, saved: seq<Option<nat>>): map<string, nat>
    requires |names| == |saved|
    decreases |names|
  {
    if |names| == 0 then env else Restore(Put(env, names[0], saved[0]), names[1..], saved[1..])
  }

  /**
    Where a name is stored: the local environment first, the module's globals
    second; `None` when neither knows it.
   */
  function Resolve(st: State, x: string): Option<Loc> {
    if x in st.env then Some(Slot(st.env[x]))
    else if x in st.globals then Some(Global(x))
    else None
  }

  /** The shape the log's first `alloca` of `slot` gives it; `None` when the log allocates no such slot. */
  function AllocatedShape(code: seq<Instr>, slot: nat): Option<Shape>
    decreases |code|
  {
    if |code| == 0 then None
    else if code[0].Alloca? && code[0].slot == slot then Some(code[0].shape)
    else AllocatedShape(code[1..], slot)
  }

  /**
    The shape of the storage a name resolved to: a global's declared shape, or the
    shape a stack slot was allocated with.
   */
  function StorageShape(st: State, loc: Loc): Option<Shape> {
    match loc
    case Global(g) => if g in st.globals then Some(st.globals[g]) else None
    case Slot(s) => AllocatedShape(st.code, s)
  }

  /** Lowering an expression only appends to the log, only draws fresh ids, and never touches the module's tables. */
  predicate Extends(st: State, st': State) {
    && st.next <= st'.next
    && st.code <= st'.code
    && st'.globals == st.globals
    && st'.funcs == st.funcs
  }

  /** Top-level lowering only appends to the log and only draws fresh ids. */
  predicate Grows(st: State, st': State) {
    st.next <= st'.next && st.code <= st'.code
  }
}
