/** The GrumpyVM executor (vm.rs): an explicit machine state, a one-step
    transition function that mirrors one turn of the fetch/increment/
    dispatch loop, and a fuel-bounded run. The loop is `exec` in
    `Debug::NODEBUG` mode, which prints nothing.

    Integer arithmetic follows a debug build of the Rust code: an overflowing
    `i32`, `u32` or `usize` operation, a division by zero and an index out of
    range end the run with `Panic`, the failures the code reports itself end
    it with `Err`.
 */
module Vm {
  import opened Results
  import opened Isa

  const STK_SIZE: nat := 1024
  const HEAP_SIZE: nat := 1024
  const U32_LIMIT: int := 0x1_0000_0000
  const USIZE_LIMIT: int := 0x1_0000_0000_0000_0000

  const IndexOutOfBounds := "index out of bounds"
  const AddOverflow := "attempt to add with overflow"
  const SubOverflow := "attempt to subtract with overflow"
  const MulOverflow := "attempt to multiply with overflow"
  const DivOverflow := "attempt to divide with overflow"
  const DivByZero := "attempt to divide by zero"

  /** GrumpyVM state: registers, operand stack and heap. The program, which
      never changes while it runs, is passed alongside the state. */
  datatype State = State(pc: u32, fp: u32, stk: seq<Val>, heap: seq<Val>)

  /** Initial state: pc and fp 0, empty stack and heap. */
  function Init(): (r: State)
    ensures r.pc == 0 && r.fp == 0 && |r.stk| == 0 && |r.heap| == 0
    ensures Bounded(r)
  {
    State(0, 0, [], [])
  }

  /** The bounds every state reached from `Init` keeps. */
  predicate Bounded(s: State) {
    |s.stk| <= STK_SIZE && |s.heap| < HEAP_SIZE
  }

  // ---------------------------------------------------------------------
  // Stack primitives
  // ---------------------------------------------------------------------

  /** Pop a value from the stack, checking for underflow. */
  function StackPop(s: State): (r: Result<(Val, State)>)
    ensures r.Ok? <==> |s.stk| > 0
    ensures !r.Ok? ==> r == Err("attempt to pop empty stack")
  {
    if |s.stk| > 0 then
      var n := |s.stk| - 1;
      Ok((s.stk[n], s.(stk := s.stk[..n])))
    else
      Err("attempt to pop empty stack")
  }

  /** Push a value onto the stack, checking for overflow. */
  function StackPush(s: State, v: Val): (r: Result<State>)
    ensures r.Ok? <==> |s.stk| < STK_SIZE
    ensures !r.Ok? ==> r == Err("out of stack space")
  {
    if |s.stk| < STK_SIZE then
      Ok(s.(stk := s.stk + [v]))
    else
      Err("out of stack space")
  }

  /** Pushing a value and popping it again gives back the value and the
      original state. */
  lemma PushThenPop(s: State, v: Val)
    requires |s.stk| < STK_SIZE
    ensures StackPush(s, v).Ok? && StackPop(StackPush(s, v).value) == Ok((v, s))
  {
    assert (s.stk + [v])[..|s.stk|] == s.stk;
  }

  /** Popping a value and pushing it back restores the state. */
  lemma PopThenPush(s: State)
    requires 0 < |s.stk| <= STK_SIZE
    ensures StackPop(s).Ok? && StackPush(StackPop(s).value.1, StackPop(s).value.0) == Ok(s)
  {
    var (v, t) := StackPop(s).value;
    assert t.stk + [v] == s.stk;
  }

  // ---------------------------------------------------------------------
  // Machine arithmetic
  // ---------------------------------------------------------------------

  /** An `i32` result, or the overflow panic of a debug build. */
  function CheckI32(x: int, overflow: string): (r: Result<i32>)
    ensures r.Ok? <==> FitsI32(x)
    ensures r.Ok? ==> r.value == x
    ensures !r.Ok? ==> r == Panic(overflow)
  {
    if FitsI32(x) then Ok(x) else Panic(overflow)
  }

  /** `u32` addition, panicking on overflow. */
  function AddU32(x: u32, y: u32): (r: Result<u32>)
    ensures r.Ok? <==> x + y < U32_LIMIT
    ensures r.Ok? ==> r.value == x + y
    ensures !r.Ok? ==> r == Panic(AddOverflow)
  {
    if x + y < U32_LIMIT then Ok(x + y) else Panic(AddOverflow)
  }

  /** `usize` addition, panicking on overflow. */
  function AddUsize(x: nat, y: nat): (r: Result<usize>)
    ensures r.Ok? <==> x + y < USIZE_LIMIT
    ensures r.Ok? ==> r.value == x + y
    ensures !r.Ok? ==> r == Panic(AddOverflow)
  {
    if x + y < USIZE_LIMIT then Ok(x + y) else Panic(AddOverflow)
  }

  /** Rust's `i as usize` for an `i32`: sign extension to 64 bits. */
  function AsUsize(i: i32): (u: usize)
    ensures i >= 0 ==> u == i
    ensures i < 0 ==> u >= USIZE_LIMIT + I32_MIN
    ensures (u - i) % USIZE_LIMIT == 0
  {
    if i < 0 then i + USIZE_LIMIT else i
  }

  /** Magnitude of an integer. */
  function Abs(x: int): nat {
    if x < 0 then -x else x
  }

  /** Rust's `/` on integers: the quotient rounded toward zero. */
  function DivTrunc(a: int, b: int): (q: int)
    requires b != 0
    ensures Abs(a - q * b) < Abs(b)
    ensures a - q * b == 0 || (a - q * b < 0 <==> a < 0)
    ensures FitsI32(a) && FitsI32(b) ==> (FitsI32(q) <==> !(a == I32_MIN && b == -1))
  {
    var m := Abs(a) / Abs(b);
    TruncRemainder(a, b, m);
    QuotientBound(Abs(a), Abs(b));
    if (a < 0) == (b < 0) then m else -m
  }

  /** A quotient is at most the dividend, and at most half of it when the
      divisor is 2 or more. */
  lemma QuotientBound(x: nat, y: nat)
    requires y >= 1
    ensures x / y <= x
    ensures y >= 2 ==> 2 * (x / y) <= x
  {
    var q := x / y;
    assert q * y <= x;
    assert q <= q * y;
    if y >= 2 {
      assert 2 * q <= q * y;
    }
  }

  /** The remainder of truncating division, case by case on the signs. */
  lemma TruncRemainder(a: int, b: int, m: int)
    requires b != 0 && m == Abs(a) / Abs(b)
    ensures var q := if (a < 0) == (b < 0) then m else -m;
      a - q * b == (if a < 0 then -(Abs(a) % Abs(b)) else Abs(a) % Abs(b))
  {
    var A: int, B: int := Abs(a), Abs(b);
    assert A == m * B + A % B;
    var q := if (a < 0) == (b < 0) then m else -m;
    if a < 0 && b < 0 {
      assert q * b == -(m * B) by { assert b == -B; }
    } else if a < 0 {
      assert q * b == -(m * B);
    } else if b < 0 {
      assert q * b == m * B by { assert b == -B; }
    } else {
      assert q * b == m * B;
    }
  }

  /** Evaluate a unary operation on a value. */
  function EvalUnop(u: Unop, v: Val): (r: Result<Val>)
    ensures r.Ok? <==> v.Vbool?
    ensures r.Ok? ==> r.value == Vbool(!v.boolean)
    ensures !r.Ok? ==> r == Err("expected bool")
  {
    match u
    case Neg =>
      var b :- OkOr(ToBool(v), "expected bool");
      Ok(Vbool(!b))
  }

  /** Evaluate a binary operation on two values; `v1` is the value popped
      first (the top of the stack). */
  function EvalBinop(b: Binop, v1: Val, v2: Val): (r: Result<Val>)
    ensures !(v1.Vi32? && v2.Vi32?) ==> r == Err("expected i32")
    ensures v1.Vi32? && v2.Vi32? && b == Add ==> var x, y := v1.int32, v2.int32;
      r == if FitsI32(x + y) then Ok(Vi32(x + y)) else Panic(AddOverflow)
    ensures v1.Vi32? && v2.Vi32? && b == Mul ==> var x, y := v1.int32, v2.int32;
      r == if FitsI32(x * y) then Ok(Vi32(x * y)) else Panic(MulOverflow)
    ensures v1.Vi32? && v2.Vi32? && b == Sub ==> var x, y := v1.int32, v2.int32;
      r == if FitsI32(x - y) then Ok(Vi32(x - y)) else Panic(SubOverflow)
    ensures v1.Vi32? && v2.Vi32? && b == Div ==> var x, y := v1.int32, v2.int32;
      && (y == 0 ==> r == Panic(DivByZero))
      && (x == I32_MIN && y == -1 ==> r == Panic(DivOverflow))
      && (y != 0 && !(x == I32_MIN && y == -1) ==> r == Ok(Vi32(DivTrunc(x, y))))
    ensures v1.Vi32? && v2.Vi32? && b == Lt ==> r == Ok(Vbool(v1.int32 <= v2.int32))
    ensures v1.Vi32? && v2.Vi32? && b == Eq ==> r == Ok(Vbool(v1.int32 == v2.int32))
  {
    var i1 :- OkOr(ToI32(v1), "expected i32");
    var i2 :- OkOr(ToI32(v2), "expected i32");
    match b
    case Add => var x :- CheckI32(i1 as int + i2 as int, AddOverflow); Ok(Vi32(x))
    case Mul => var x :- CheckI32(i1 as int * i2 as int, MulOverflow); Ok(Vi32(x))
    case Sub => var x :- CheckI32(i1 as int - i2 as int, SubOverflow); Ok(Vi32(x))
    case Div =>
      if i2 == 0 then Panic(DivByZero)
      else var x :- CheckI32(DivTrunc(i1, i2), DivOverflow); Ok(Vi32(x))
    case Lt => Ok(Vbool(i1 <= i2))
    case Eq => Ok(Vbool(i1 == i2))
  }

  // ---------------------------------------------------------------------
  // One step
  // ---------------------------------------------------------------------

  /** What one turn of the loop leaves: the next state, or the state in which
      `Halt` returned. */
  datatype Transition = Continue(next: State) | Stop(final: State) {
    function state(): State {
      match this
      case Continue(s) => s
      case Stop(s) => s
    }
  }

  /** True of the instructions that may set pc to something other than the
      next instruction. */
  predicate IsJump(i: Instr) {
    i.Call? || i.Ret? || i.Branch?
  }

  /** One turn of the executor loop: bounds-check pc, fetch, increment pc,
      dispatch. */
  function Step(prog: seq<Instr>, s: State): (r: Result<Transition>)
    ensures s.pc >= |prog| ==> r == Err("pc out of bounds")
    ensures r.Ok? ==> s.pc < |prog|
    ensures r.Ok? ==> (r.value.Stop? <==> prog[s.pc].Halt?)
    ensures r.Ok? && !IsJump(prog[s.pc]) ==> r.value.state().pc == s.pc + 1
    ensures r.Ok? && !prog[s.pc].Alloc? && !prog[s.pc].Set? ==> r.value.state().heap == s.heap
    ensures r.Ok? ==> |r.value.state().heap| >= |s.heap|
    ensures Bounded(s) && r.Ok? ==> Bounded(r.value.state())
  {
    if s.pc >= |prog| then Err("pc out of bounds")
    else
      var pc :- AddU32(s.pc, 1);
      Dispatch(prog[s.pc], s.(pc := pc))
  }

  /** The effect of one instruction, pc already incremented. */
  function Dispatch(instr: Instr, s: State): (r: Result<Transition>)
    ensures r.Ok? ==> (r.value.Stop? <==> instr.Halt?)
    ensures r.Ok? && !IsJump(instr) ==> r.value.state().pc == s.pc
    ensures r.Ok? && !instr.Alloc? && !instr.Set? ==> r.value.state().heap == s.heap
    ensures r.Ok? ==> |r.value.state().heap| >= |s.heap|
    ensures Bounded(s) && r.Ok? ==> Bounded(r.value.state())
  {
    match instr
    case Push(_) => StackOp(instr, s)
    case Pop => StackOp(instr, s)
    case Peek(_) => StackOp(instr, s)
    case Swap => StackOp(instr, s)
    case Unary(_) => ArithOp(instr, s)
    case Binary(_) => ArithOp(instr, s)
    case Alloc => ExecAlloc(s)
    case Set => ExecSet(s)
    case Get => ExecGet(s)
    case Var(_) => FrameOp(instr, s)
    case Store(_) => FrameOp(instr, s)
    case SetFrame(_) => FrameOp(instr, s)
    case Call => ControlOp(instr, s)
    case Ret => ControlOp(instr, s)
    case Branch => ControlOp(instr, s)
    case Halt => Ok(Stop(s))
  }

  /** Stack shuffling: only the operand stack changes. */
  function StackOp(instr: Instr, s: State): (r: Result<Transition>)
    requires instr.Push? || instr.Pop? || instr.Peek? || instr.Swap?
    ensures r.Ok? ==> r.value.Continue? && r.value.next == s.(stk := r.value.next.stk)
    ensures Bounded(s) && r.Ok? ==> Bounded(r.value.next)
  {
    match instr
    case Push(v) =>
      var t :- StackPush(s, v);
      Ok(Continue(t))
    case Pop =>
      var p :- StackPop(s);
      Ok(Continue(p.1))
    case Peek(i) =>
      if i >= |s.stk| then Panic(IndexOutOfBounds)
      else
        var t :- StackPush(s, s.stk[i]);
        Ok(Continue(t))
    case Swap =>
      var p2 :- StackPop(s);
      var p1 :- StackPop(p2.1);
      Ok(Continue(p1.1.(stk := p1.1.stk + [p2.0, p1.0])))
  }

  /** `Unary` and `Binary`: operands are popped, the result is pushed
      without the capacity check of `push`. */
  function ArithOp(instr: Instr, s: State): (r: Result<Transition>)
    requires instr.Unary? || instr.Binary?
    ensures r.Ok? ==> r.value.Continue? && r.value.next == s.(stk := r.value.next.stk)
    ensures r.Ok? ==> 0 < |r.value.next.stk| <= |s.stk|
  {
    match instr
    case Unary(u) =>
      var p :- StackPop(s);
      var v :- EvalUnop(u, p.0);
      Ok(Continue(p.1.(stk := p.1.stk + [v])))
    case Binary(b) =>
      var p1 :- StackPop(s);
      var p2 :- StackPop(p1.1);
      var v :- EvalBinop(b, p1.0, p2.0);
      Ok(Continue(p2.1.(stk := p2.1.stk + [v])))
  }

  /** Frame-relative access: `Var`, `Store`, `SetFrame`. Neither the pc
      nor the heap changes. */
  function FrameOp(instr: Instr, s: State): (r: Result<Transition>)
    requires instr.Var? || instr.Store? || instr.SetFrame?
    ensures r.Ok? ==> r.value.Continue? && r.value.next == s.(stk := r.value.next.stk, fp := r.value.next.fp)
    ensures Bounded(s) && r.Ok? ==> Bounded(r.value.next)
  {
    match instr
    case Var(i) =>
      var ix :- AddU32(s.fp, i);
      if ix < |s.stk| then
        var t :- StackPush(s, s.stk[ix]);
        Ok(Continue(t))
      else
        Err("variable access past end of stack")
    case Store(i) =>
      var ix :- AddU32(s.fp, i);
      var p :- StackPop(s);
      var t := p.1;
      if ix < |t.stk| then Ok(Continue(t.(stk := t.stk[ix := p.0])))
      else Err("store past end of stack")
    case SetFrame(i) =>
      var t :- StackPush(s, Vloc(s.fp));
      var len := |t.stk|;
      if len < i then Panic(SubOverflow)
      else if len - i < 1 then Panic(SubOverflow)
      else Ok(Continue(t.(fp := len - i - 1)))
  }

  /** Control transfer: `Call`, `Ret`, `Branch`. The heap is untouched and
      the stack never grows. */
  function ControlOp(instr: Instr, s: State): (r: Result<Transition>)
    requires instr.Call? || instr.Ret? || instr.Branch?
    ensures r.Ok? ==> r.value.Continue? && r.value.next.heap == s.heap
    ensures r.Ok? ==> |r.value.next.stk| <= |s.stk|
  {
    match instr
    case Call =>
      var p :- StackPop(s);
      if p.0.Vloc? then Ok(Continue(p.1.(stk := p.1.stk + [Vloc(s.pc)], pc := p.0.loc)))
      else Err("expected loc for call target")
    case Ret =>
      var p1 :- StackPop(s);
      var p2 :- StackPop(p1.1);
      var p3 :- StackPop(p2.1);
      var t := p3.1;
      if p2.0.Vloc? && p3.0.Vloc? then
        var keep := if s.fp < |t.stk| then s.fp else |t.stk|;
        Ok(Continue(t.(stk := t.stk[..keep] + [p1.0], pc := p2.0.loc, fp := p3.0.loc)))
      else
        Err("expected location for pc and fp in return")
    case Branch =>
      var p1 :- StackPop(s);
      var p2 :- StackPop(p1.1);
      var target :- OkOr(ToLoc(p1.0), "expected location");
      var cond :- OkOr(ToBool(p2.0), "expected bool");
      Ok(Continue(if cond then p2.1.(pc := target) else p2.1))
  }

  /** `Alloc`: pop the initial value, then the size; append a size header
      and `size` copies of the initial value to the heap; push the header's
      address. */
  function ExecAlloc(s: State): (r: Result<Transition>)
    ensures r.Ok? ==> r.value.Continue?
    ensures r.Ok? ==> r.value.next.pc == s.pc && r.value.next.fp == s.fp
    ensures r.Ok? ==> s.heap < r.value.next.heap && |r.value.next.heap| < HEAP_SIZE
    ensures r.Ok? ==> |r.value.next.stk| == |s.stk| - 1
  {
    var p1 :- StackPop(s);
    var p2 :- StackPop(p1.1);
    var t := p2.1;
    var size :- OkOr(ToI32(p2.0), "expected i32");
    var n := AsUsize(size);
    var sum :- AddUsize(|t.heap|, n);
    var total :- AddUsize(sum, 1);
    if total < HEAP_SIZE then
      var base := |t.heap|;
      var heap := t.heap + [Vsize(n)] + seq(n, _ => p1.0);
      Ok(Continue(t.(heap := heap, stk := t.stk + [Vaddr(base)])))
    else
      Err("out of heap space")
  }

  /** The checks `Get` and `Set` share: `ix` and `base` read from the
      popped values, `base + ix` inside the heap capacity, a size header at
      `base`, and `ix` below that size. Yields the slot `base + ix + 1`. */
  function ArraySlot(heap: seq<Val>, vbase: Val, vix: Val): (r: Result<nat>)
    ensures r.Ok? ==> r.value < |heap|
    ensures r.Ok? ==> vbase.Vaddr? && vix.Vi32? && vix.int32 >= 0
    ensures r.Ok? ==> vbase.addr < |heap| && heap[vbase.addr].Vsize? && r.value == vbase.addr + vix.int32 + 1
    ensures r.Ok? ==> vix.int32 < heap[vbase.addr].size
  {
    var i :- OkOr(ToI32(vix), "expected i32");
    var ix := AsUsize(i);
    var base :- OkOr(ToAddress(vbase), "expected address");
    var sum :- AddUsize(base, ix);
    if sum < HEAP_SIZE then
      if base >= |heap| then Panic(IndexOutOfBounds)
      else
        match heap[base]
        case Vsize(size) =>
          if ix < size then
            if base + ix + 1 < |heap| then Ok(base + ix + 1) else Panic(IndexOutOfBounds)
          else Err("index past end of array")
        case _ => Err("expected size at array location")
    else
      Err("indexing past end of heap")
  }

  /** `Set`: pop the value, the index and the base address; write the
      value into the array slot. */
  function ExecSet(s: State): (r: Result<Transition>)
    ensures r.Ok? ==> r.value.Continue?
    ensures r.Ok? ==> r.value.next.pc == s.pc && r.value.next.fp == s.fp
    ensures r.Ok? ==> |r.value.next.heap| == |s.heap| && |r.value.next.stk| == |s.stk| - 3
  {
    var p1 :- StackPop(s);
    var p2 :- StackPop(p1.1);
    var p3 :- StackPop(p2.1);
    var t := p3.1;
    var slot :- ArraySlot(t.heap, p3.0, p2.0);
    Ok(Continue(t.(heap := t.heap[slot := p1.0])))
  }

  /** `Get`: pop the index and the base address; push the array slot. */
  function ExecGet(s: State): (r: Result<Transition>)
    ensures r.Ok? ==> r.value.Continue?
    ensures r.Ok? ==> r.value.next.pc == s.pc && r.value.next.fp == s.fp
    ensures r.Ok? ==> r.value.state().heap == s.heap
    ensures r.Ok? ==> |r.value.next.stk| == |s.stk| - 1
  {
    var p1 :- StackPop(s);
    var p2 :- StackPop(p1.1);
    var t := p2.1;
    var slot :- ArraySlot(t.heap, p2.0, p1.0);
    var u :- StackPush(t, t.heap[slot]);
    Ok(Continue(u))
  }

  // ---------------------------------------------------------------------
  // Running
  // ---------------------------------------------------------------------

  /** Where a bounded execution ended: at `Halt`, or with its fuel spent. */
  datatype Exit = Halted(final: State) | FuelSpent(last: State) {
    /** The state the execution ended in, either way. */
    function state(): State {
      match this
      case Halted(f) => f
      case FuelSpent(l) => l
    }
  }

  /** The executor loop, run for at most `fuel` steps. */
  function Exec(prog: seq<Instr>, s: State, fuel: nat): (r: Result<Exit>)
    ensures fuel == 0 ==> r == Ok(FuelSpent(s))
    ensures Bounded(s) && r.Ok? ==> Bounded(r.value.state())
    ensures r.Ok? ==> |r.value.state().heap| >= |s.heap|
    decreases fuel
  {
    if fuel == 0 then Ok(FuelSpent(s))
    else
      var t :- Step(prog, s);
      match t
      case Stop(f) => Ok(Halted(f))
      case Continue(n) => Exec(prog, n, fuel - 1)
  }

  /** A run halts only by executing a `Halt`, with pc just past it, and
      the heap it ends with is at least as large as the one it started
      with. */
  lemma {:induction false} ExecHaltsAtHalt(prog: seq<Instr>, s: State, fuel: nat)
    requires Exec(prog, s, fuel).Ok? && Exec(prog, s, fuel).value.Halted?
    ensures var f := Exec(prog, s, fuel).value.final;
      0 < f.pc <= |prog| && prog[f.pc - 1].Halt? && |f.heap| >= |s.heap|
    decreases fuel
  {
    var t := Step(prog, s).value;
    if t.Continue? {
      ExecHaltsAtHalt(prog, t.next, fuel - 1);
    }
  }

  /** The answer of a bounded run: the popped top of stack, or none yet. */
  datatype Answer = Answer(v: Val) | FuelOut

  /** Run a program from the initial state; at `Halt`, pop the result. */
  function RunProgram(prog: seq<Instr>, fuel: nat): (r: Result<Answer>)
    ensures fuel == 0 ==> r == Ok(FuelOut)
    ensures r.Ok? && r.value.Answer? ==> exists i :: 0 <= i < |prog| && prog[i].Halt?
  {
    var e :- Exec(prog, Init(), fuel);
    match e
    case Halted(f) =>
      ExecHaltsAtHalt(prog, Init(), fuel);
      var p :- StackPop(f);
      Ok(Answer(p.0))
    case FuelSpent(_) => Ok(FuelOut)
  }
}
