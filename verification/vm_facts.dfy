/** What the executor's instructions do, stated one opcode at a time and
    across short instruction sequences, and the bounds every run keeps.
 */
module VmFacts {
  import opened Results
  import opened Isa
  import opened Vm

  /** `s` is about to execute `i`, and incrementing pc does not overflow. */
  predicate At(prog: seq<Instr>, s: State, i: Instr) {
    s.pc < |prog| && prog[s.pc] == i && s.pc + 1 < U32_LIMIT
  }

  /** `s` with pc moved to the next instruction. */
  function Next(s: State): State
    requires s.pc + 1 < U32_LIMIT
  {
    s.(pc := s.pc + 1)
  }

  // ---------------------------------------------------------------------
  // Bounds
  // ---------------------------------------------------------------------

  /** The heap of a running program never reaches 1024 slots and its stack
      never exceeds 1024 values: `Vm.Exec` keeps the bounds `Init` meets. */
  lemma RunKeepsBounds(prog: seq<Instr>, fuel: nat)
    requires Exec(prog, Init(), fuel).Ok?
    ensures Bounded(Exec(prog, Init(), fuel).value.state())
  {
  }

  // ---------------------------------------------------------------------
  // The loop
  // ---------------------------------------------------------------------

  /** One turn of the loop that continues costs one unit of fuel. */
  lemma ExecContinues(prog: seq<Instr>, s: State, t: State, fuel: nat)
    requires Step(prog, s) == Ok(Continue(t)) && fuel > 0
    ensures Exec(prog, s, fuel) == Exec(prog, t, fuel - 1)
  {
  }

  /** `Push(v)` appends v when there is room. */
  lemma PushAppends(prog: seq<Instr>, s: State, v: Val)
    requires At(prog, s, Push(v)) && |s.stk| < STK_SIZE
    ensures Step(prog, s) == Ok(Continue(Next(s).(stk := s.stk + [v])))
  {
  }

  /** `Push(v)` on a full stack is an error. */
  lemma PushOnFullStackFails(prog: seq<Instr>, s: State, v: Val)
    requires At(prog, s, Push(v)) && |s.stk| >= STK_SIZE
    ensures Step(prog, s) == Err("out of stack space")
  {
  }

  /** `Pop` discards the top value and nothing else. */
  lemma PopDiscardsTop(prog: seq<Instr>, s: State, w: seq<Val>, v: Val)
    requires At(prog, s, Pop) && s.stk == w + [v]
    ensures Step(prog, s) == Ok(Continue(Next(s).(stk := w)))
  {
    assert (w + [v])[..|w|] == w;
  }

  /** `Pop` on an empty stack is an error. */
  lemma PopNeedsValue(prog: seq<Instr>, s: State)
    requires At(prog, s, Pop) && |s.stk| == 0
    ensures Step(prog, s) == Err("attempt to pop empty stack")
  {
  }

  /** A turn of the loop that does not continue ends the run the same way
      whatever fuel is left. */
  lemma ExecEnds(prog: seq<Instr>, s: State, fuel: nat, more: nat)
    requires 0 < fuel && 0 < more
    requires !(Step(prog, s).Ok? && Step(prog, s).value.Continue?)
    ensures Exec(prog, s, more) == Exec(prog, s, fuel)
  {
  }

  /** One more unit of fuel changes nothing once a run has halted or
      failed. */
  lemma {:induction false} ExecOneMore(prog: seq<Instr>, s: State, fuel: nat)
    requires 0 < fuel
    requires !Exec(prog, s, fuel).Ok? || Exec(prog, s, fuel).value.Halted?
    ensures Exec(prog, s, fuel + 1) == Exec(prog, s, fuel)
    decreases fuel
  {
    var r := Step(prog, s);
    if r.Ok? && r.value.Continue? {
      ExecContinues(prog, s, r.value.next, fuel);
      ExecContinues(prog, s, r.value.next, fuel + 1);
      if fuel == 1 {
        assert false;
      }
      ExecOneMore(prog, r.value.next, fuel - 1);
    } else {
      ExecEnds(prog, s, fuel, fuel + 1);
    }
  }

  /** Fuel only bounds the run: once a run has halted or failed, more fuel
      changes nothing. */
  lemma {:induction false} ExecFuelMonotone(prog: seq<Instr>, s: State, fuel: nat, more: nat)
    requires 0 < fuel <= more
    requires !Exec(prog, s, fuel).Ok? || Exec(prog, s, fuel).value.Halted?
    ensures Exec(prog, s, more) == Exec(prog, s, fuel)
    decreases more - fuel
  {
    if fuel < more {
      ExecOneMore(prog, s, fuel);
      ExecFuelMonotone(prog, s, fuel + 1, more);
    }
  }

  /** Running past the end of the program is an error, not an implicit halt. */
  lemma RunOffTheEnd(v: Val, fuel: nat)
    ensures RunProgram([Push(v)], fuel + 2) == Err("pc out of bounds")
  {
    var s1 := Init().(pc := 1, stk := [v]);
    assert [] + [v] == [v];
    assert Step([Push(v)], Init()) == Ok(Continue(s1));
    ExecContinues([Push(v)], Init(), s1, fuel + 2);
  }

  /** `Halt` stops the loop at once, with pc already incremented. */
  lemma HaltStops(prog: seq<Instr>, s: State, fuel: nat)
    requires At(prog, s, Halt) && fuel > 0
    ensures Exec(prog, s, fuel) == Ok(Halted(Next(s)))
  {
  }

  /** `run` returns the value on top of the stack at `Halt`; values below it
      are ignored. */
  lemma RunReturnsTopOfStack(a: Val, b: Val, fuel: nat)
    ensures RunProgram([Push(a), Push(b), Halt], fuel + 3) == Ok(Answer(b))
  {
    var prog := [Push(a), Push(b), Halt];
    PushesStack(prog, a, b, fuel + 1);
    HaltStops(prog, State(2, 0, [a, b], []), fuel + 1);
  }

  /** `run` fails when the stack is empty at `Halt`. */
  lemma RunEmptyStackFails(fuel: nat)
    requires fuel > 0
    ensures RunProgram([Halt], fuel) == Err("attempt to pop empty stack")
  {
    assert Exec([Halt], Init(), fuel) == Ok(Halted(Init().(pc := 1)));
  }

  /** What `run` reports for any program: the loop's failure, the popped
      top of the stack `Halt` left (the pop error when it is empty), or no
      answer while the fuel lasts. */
  lemma RunPopsHaltedTop(prog: seq<Instr>, fuel: nat)
    ensures var e := Exec(prog, Init(), fuel);
      !e.Ok? ==> RunProgram(prog, fuel) == e.PropagateFailure()
    ensures var e := Exec(prog, Init(), fuel);
      e.Ok? && e.value.FuelSpent? ==> RunProgram(prog, fuel) == Ok(FuelOut)
    ensures var e := Exec(prog, Init(), fuel);
      e.Ok? && e.value.Halted? && |e.value.final.stk| > 0 ==>
        RunProgram(prog, fuel) == Ok(Answer(e.value.final.stk[|e.value.final.stk| - 1]))
    ensures var e := Exec(prog, Init(), fuel);
      e.Ok? && e.value.Halted? && |e.value.final.stk| == 0 ==>
        RunProgram(prog, fuel) == Err("attempt to pop empty stack")
  {
  }

  /** The two pushes of `push a; push b; ...` leave a below b. */
  lemma PushesStack(prog: seq<Instr>, a: Val, b: Val, fuel: nat)
    requires 2 < |prog| && prog[0] == Push(a) && prog[1] == Push(b)
    ensures Exec(prog, Init(), fuel + 2) == Exec(prog, State(2, 0, [a, b], []), fuel)
  {
    var s1 := State(1, 0, [a], []);
    PushAppends(prog, Init(), a);
    assert [] + [a] == [a];
    ExecContinues(prog, Init(), s1, fuel + 2);
    PushAppends(prog, s1, b);
    assert [a] + [b] == [a, b];
    ExecContinues(prog, s1, State(2, 0, [a, b], []), fuel + 1);
  }

  /** `push a; push b; binary add; halt` halts with a + b alone on the
      stack, when the sum fits in an i32. */
  lemma ExecAdds(prog: seq<Instr>, a: i32, b: i32, fuel: nat)
    requires prog == [Push(Vi32(a)), Push(Vi32(b)), Binary(Add), Halt]
    requires FitsI32(a + b)
    ensures Exec(prog, Init(), fuel + 4) == Ok(Halted(State(4, 0, [Vi32(a + b)], [])))
  {
    var s2 := State(2, 0, [Vi32(a), Vi32(b)], []);
    var s3 := State(3, 0, [Vi32(a + b)], []);
    PushesStack(prog, Vi32(a), Vi32(b), fuel + 2);
    BinaryTopIsLeftOperand(prog, s2, Add, [], Vi32(a), Vi32(b));
    assert EvalBinop(Add, Vi32(b), Vi32(a)) == Ok(Vi32(a + b));
    assert [] + [Vi32(a + b)] == [Vi32(a + b)];
    ExecContinues(prog, s2, s3, fuel + 2);
    HaltStops(prog, s3, fuel + 1);
  }

  /** `push a; push b; binary add; halt` answers a + b. */
  lemma RunAdds(a: i32, b: i32, fuel: nat)
    requires FitsI32(a + b)
    ensures RunProgram([Push(Vi32(a)), Push(Vi32(b)), Binary(Add), Halt], fuel + 4) == Ok(Answer(Vi32(a + b)))
  {
    ExecAdds([Push(Vi32(a)), Push(Vi32(b)), Binary(Add), Halt], a, b, fuel);
  }

  // ---------------------------------------------------------------------
  // Stack shuffling
  // ---------------------------------------------------------------------

  /** `Swap` exchanges the two top values and leaves the rest alone. */
  lemma SwapExchangesTopTwo(prog: seq<Instr>, s: State, w: seq<Val>, x: Val, y: Val)
    requires At(prog, s, Swap) && s.stk == w + [x, y]
    ensures Step(prog, s) == Ok(Continue(Next(s).(stk := w + [y, x])))
  {
    assert (w + [x, y])[..|w| + 1] == w + [x];
    assert (w + [x])[..|w|] == w;
  }

  /** `Swap` needs two values. */
  lemma SwapNeedsTwo(prog: seq<Instr>, s: State)
    requires At(prog, s, Swap) && |s.stk| < 2
    ensures Step(prog, s) == Err("attempt to pop empty stack")
  {
  }

  /** Two `Swap`s in a row restore the stack. */
  lemma SwapTwiceRestores(prog: seq<Instr>, s: State)
    requires At(prog, s, Swap) && At(prog, Next(s), Swap) && |s.stk| >= 2
    ensures Exec(prog, s, 2) == Ok(FuelSpent(Next(Next(s))))
  {
    var n := |s.stk|;
    var w := s.stk[..n - 2];
    assert s.stk == w + [s.stk[n - 2], s.stk[n - 1]];
    SwapExchangesTopTwo(prog, s, w, s.stk[n - 2], s.stk[n - 1]);
    var s1 := Next(s).(stk := w + [s.stk[n - 1], s.stk[n - 2]]);
    ExecContinues(prog, s, s1, 2);
    SwapExchangesTopTwo(prog, s1, w, s.stk[n - 1], s.stk[n - 2]);
    ExecContinues(prog, s1, Next(Next(s)), 1);
  }

  /** `Peek(i)` pushes a copy of the i-th value counted from the BOTTOM of
      the stack, and panics when there is none. */
  lemma PeekCopiesFromBottom(prog: seq<Instr>, s: State, i: u32)
    requires At(prog, s, Peek(i)) && |s.stk| < STK_SIZE
    ensures i < |s.stk| ==> Step(prog, s) == Ok(Continue(Next(s).(stk := s.stk + [s.stk[i]])))
    ensures i >= |s.stk| ==> Step(prog, s) == Panic(IndexOutOfBounds)
  {
  }

  // ---------------------------------------------------------------------
  // Operators
  // ---------------------------------------------------------------------

  /** `Binary(op)` over `... a b` (b on top) computes `op(b, a)`: the top
      is the left operand. */
  lemma BinaryTopIsLeftOperand(prog: seq<Instr>, s: State, op: Binop, w: seq<Val>, a: Val, b: Val)
    requires At(prog, s, Binary(op)) && s.stk == w + [a, b]
    ensures EvalBinop(op, b, a).Ok? ==>
      Step(prog, s) == Ok(Continue(Next(s).(stk := w + [EvalBinop(op, b, a).value])))
    ensures !EvalBinop(op, b, a).Ok? ==> Step(prog, s) == EvalBinop(op, b, a).PropagateFailure()
  {
    assert (w + [a, b])[..|w| + 1] == w + [a];
    assert (w + [a])[..|w|] == w;
  }

  /** Hence `push a; push b; binary sub` leaves b - a. */
  lemma SubIsTopMinusSecond(prog: seq<Instr>, s: State, w: seq<Val>, a: i32, b: i32)
    requires At(prog, s, Binary(Sub)) && s.stk == w + [Vi32(a), Vi32(b)]
    requires FitsI32(b - a)
    ensures Step(prog, s) == Ok(Continue(Next(s).(stk := w + [Vi32(b - a)])))
  {
    BinaryTopIsLeftOperand(prog, s, Sub, w, Vi32(a), Vi32(b));
  }

  /** `Lt` compares with `<=`: equal operands compare true. */
  lemma LtIsAtMost(prog: seq<Instr>, s: State, w: seq<Val>, a: i32, b: i32)
    requires At(prog, s, Binary(Lt)) && s.stk == w + [Vi32(a), Vi32(b)]
    ensures Step(prog, s) == Ok(Continue(Next(s).(stk := w + [Vbool(b <= a)])))
    ensures a == b ==> Step(prog, s).value.next.stk[|w|] == Vbool(true)
  {
    BinaryTopIsLeftOperand(prog, s, Lt, w, Vi32(a), Vi32(b));
  }

  /** Division is unchecked: a zero divisor (the second value) panics. */
  lemma DivByZeroPanics(prog: seq<Instr>, s: State, w: seq<Val>, b: i32)
    requires At(prog, s, Binary(Div)) && s.stk == w + [Vi32(0), Vi32(b)]
    ensures Step(prog, s) == Panic(DivByZero)
  {
    BinaryTopIsLeftOperand(prog, s, Div, w, Vi32(0), Vi32(b));
  }

  /** Division rounds toward zero, like Rust's `/`. */
  lemma DivRoundsTowardZero(prog: seq<Instr>, s: State, w: seq<Val>)
    requires At(prog, s, Binary(Div)) && s.stk == w + [Vi32(2), Vi32(-7)]
    ensures Step(prog, s) == Ok(Continue(Next(s).(stk := w + [Vi32(-3)])))
  {
    BinaryTopIsLeftOperand(prog, s, Div, w, Vi32(2), Vi32(-7));
    assert DivTrunc(-7, 2) == -3;
  }

  /** Both operands of a binary operator must be integers. */
  lemma BinaryNeedsIntegers(prog: seq<Instr>, s: State, op: Binop, w: seq<Val>, a: Val, b: Val)
    requires At(prog, s, Binary(op)) && s.stk == w + [a, b]
    requires !a.Vi32? || !b.Vi32?
    ensures Step(prog, s) == Err("expected i32")
  {
    BinaryTopIsLeftOperand(prog, s, op, w, a, b);
  }

  /** `Unary(Neg)` flips a boolean and rejects everything else. */
  lemma NegFlips(prog: seq<Instr>, s: State, w: seq<Val>, v: Val)
    requires At(prog, s, Unary(Neg)) && s.stk == w + [v]
    ensures v.Vbool? ==> Step(prog, s) == Ok(Continue(Next(s).(stk := w + [Vbool(!v.boolean)])))
    ensures !v.Vbool? ==> Step(prog, s) == Err("expected bool")
  {
    assert (w + [v])[..|w|] == w;
  }

  /** Negating twice restores the boolean. */
  lemma NegTwiceRestores(prog: seq<Instr>, s: State, b: bool)
    requires At(prog, s, Unary(Neg)) && At(prog, Next(s), Unary(Neg))
    requires |s.stk| > 0 && s.stk[|s.stk| - 1] == Vbool(b)
    ensures Exec(prog, s, 2) == Ok(FuelSpent(Next(Next(s))))
  {
    var w := s.stk[..|s.stk| - 1];
    assert s.stk == w + [Vbool(b)];
    NegFlips(prog, s, w, Vbool(b));
    var s1 := Next(s).(stk := w + [Vbool(!b)]);
    ExecContinues(prog, s, s1, 2);
    NegFlips(prog, s1, w, Vbool(!b));
    ExecContinues(prog, s1, Next(Next(s)), 1);
  }

  // ---------------------------------------------------------------------
  // Heap
  // ---------------------------------------------------------------------

  /** `Alloc` over `... n v` appends a size header and n copies of v to the
      heap and pushes the header's address, when the block fits. */
  lemma AllocAppendsBlock(prog: seq<Instr>, s: State, w: seq<Val>, n: i32, v: Val)
    requires At(prog, s, Alloc) && s.stk == w + [Vi32(n), v]
    requires 0 <= n && |s.heap| + n + 1 < HEAP_SIZE
    ensures Step(prog, s) == Ok(Continue(Next(s).(
      heap := s.heap + [Vsize(n)] + seq(n, _ => v),
      stk := w + [Vaddr(|s.heap|)])))
  {
    assert (w + [Vi32(n), v])[..|w| + 1] == w + [Vi32(n)];
    assert (w + [Vi32(n)])[..|w|] == w;
  }

  /** An allocation that does not fit fails and writes nothing: a
      non-negative size is "out of heap space", and a negative one, sign
      extended to a huge `usize`, either overflows the addition or fails
      the same capacity test. */
  lemma AllocTooLargeFails(prog: seq<Instr>, s: State, w: seq<Val>, n: i32, v: Val)
    requires At(prog, s, Alloc) && s.stk == w + [Vi32(n), v]
    requires |s.heap| < HEAP_SIZE
    requires n < 0 || |s.heap| + n + 1 >= HEAP_SIZE
    ensures n >= 0 || |s.heap| + n + 1 < 0 ==> Step(prog, s) == Err("out of heap space")
    ensures n < 0 && |s.heap| + n + 1 >= 0 ==> Step(prog, s) == Panic(AddOverflow)
  {
    assert (w + [Vi32(n), v])[..|w| + 1] == w + [Vi32(n)];
    assert (w + [Vi32(n)])[..|w|] == w;
  }

  /** `Alloc` needs an integer size below the initial value. */
  lemma AllocNeedsIntegerSize(prog: seq<Instr>, s: State, w: seq<Val>, n: Val, v: Val)
    requires At(prog, s, Alloc) && s.stk == w + [n, v] && !n.Vi32?
    ensures Step(prog, s) == Err("expected i32")
  {
    assert (w + [n, v])[..|w| + 1] == w + [n];
    assert (w + [n])[..|w|] == w;
  }

  /** A well-formed array access: a size header at `base` and `ix` below
      the size, inside the heap. */
  predicate ValidIndex(heap: seq<Val>, base: Address, ix: i32) {
    base < |heap| && heap[base].Vsize? && 0 <= ix < heap[base].size
    && base + ix + 1 < |heap| <= HEAP_SIZE
  }

  /** `Set` over `... base ix v` writes v into slot base+ix+1 only: the
      header and every other slot are unchanged, and nothing is pushed. */
  lemma SetWritesOneSlot(prog: seq<Instr>, s: State, w: seq<Val>, base: Address, ix: i32, v: Val)
    requires At(prog, s, Set) && s.stk == w + [Vaddr(base), Vi32(ix), v]
    requires ValidIndex(s.heap, base, ix)
    ensures Step(prog, s) == Ok(Continue(Next(s).(stk := w, heap := s.heap[base + ix + 1 := v])))
    ensures Step(prog, s).value.next.heap[base] == s.heap[base]
  {
    assert (w + [Vaddr(base), Vi32(ix), v])[..|w| + 2] == w + [Vaddr(base), Vi32(ix)];
    assert (w + [Vaddr(base), Vi32(ix)])[..|w| + 1] == w + [Vaddr(base)];
    assert (w + [Vaddr(base)])[..|w|] == w;
  }

  /** `Get` over `... base ix` pushes the value in slot base+ix+1. */
  lemma GetReadsSlot(prog: seq<Instr>, s: State, w: seq<Val>, base: Address, ix: i32)
    requires At(prog, s, Get) && s.stk == w + [Vaddr(base), Vi32(ix)] && |s.stk| <= STK_SIZE
    requires ValidIndex(s.heap, base, ix)
    ensures Step(prog, s) == Ok(Continue(Next(s).(stk := w + [s.heap[base + ix + 1]])))
  {
    assert (w + [Vaddr(base), Vi32(ix)])[..|w| + 1] == w + [Vaddr(base)];
    assert (w + [Vaddr(base)])[..|w|] == w;
  }

  /** Slot lookup rejects an index at or past the array's size. */
  lemma SlotPastEnd(heap: seq<Val>, base: Address, ix: i32)
    requires base < |heap| && heap[base].Vsize?
    requires 0 <= ix && heap[base].size <= ix && base + ix < HEAP_SIZE
    ensures ArraySlot(heap, Vaddr(base), Vi32(ix)) == Err("index past end of array")
  {
  }

  /** Every way the slot lookup fails, in the order its checks run: the
      index and the address must have the right kinds, `base + ix` must not
      overflow and must lie below the heap capacity, the heap must hold a
      size header at `base` and the index must be below that size, and the
      slot must lie inside the heap. */
  lemma ArraySlotFailures(heap: seq<Val>, vbase: Val, vix: Val)
    ensures !vix.Vi32? ==> ArraySlot(heap, vbase, vix) == Err("expected i32")
    ensures vix.Vi32? && !vbase.Vaddr? ==> ArraySlot(heap, vbase, vix) == Err("expected address")
    ensures vix.Vi32? && vbase.Vaddr? ==>
      var base, ix, r := vbase.addr, AsUsize(vix.int32), ArraySlot(heap, vbase, vix);
      && (base + ix >= USIZE_LIMIT ==> r == Panic(AddOverflow))
      && (HEAP_SIZE <= base + ix < USIZE_LIMIT ==> r == Err("indexing past end of heap"))
      && (base + ix < HEAP_SIZE && |heap| <= base ==> r == Panic(IndexOutOfBounds))
      && (base + ix < HEAP_SIZE && base < |heap| && !heap[base].Vsize? ==>
            r == Err("expected size at array location"))
      && (base + ix < HEAP_SIZE && base < |heap| && heap[base].Vsize? && heap[base].size <= ix ==>
            r == Err("index past end of array"))
      && ((base + ix < HEAP_SIZE && base < |heap| && heap[base].Vsize? && ix < heap[base].size
           && |heap| <= base + ix + 1) ==> r == Panic(IndexOutOfBounds))
  {
  }

  /** When the slot lookup fails, `Get` and `Set` fail the same way, after
      popping their operands. */
  lemma GetSetReportSlotFailure(prog: seq<Instr>, s: State, w: seq<Val>, vbase: Val, vix: Val, v: Val)
    requires s.pc < |prog| && s.pc + 1 < U32_LIMIT
    requires || (prog[s.pc] == Get && s.stk == w + [vbase, vix])
             || (prog[s.pc] == Set && s.stk == w + [vbase, vix, v])
    requires !ArraySlot(s.heap, vbase, vix).Ok?
    ensures Step(prog, s) == ArraySlot(s.heap, vbase, vix).PropagateFailure()
  {
    if prog[s.pc] == Get {
      assert (w + [vbase, vix])[..|w| + 1] == w + [vbase];
      assert (w + [vbase])[..|w|] == w;
    } else {
      assert (w + [vbase, vix, v])[..|w| + 2] == w + [vbase, vix];
      assert (w + [vbase, vix])[..|w| + 1] == w + [vbase];
      assert (w + [vbase])[..|w|] == w;
    }
  }

  /** An index at or past the array's size is rejected, by `Get` and `Set`
      alike. */
  lemma IndexPastEndRejected(prog: seq<Instr>, s: State, w: seq<Val>, base: Address, ix: i32, v: Val)
    requires s.pc < |prog| && s.pc + 1 < U32_LIMIT
    requires || (prog[s.pc] == Get && s.stk == w + [Vaddr(base), Vi32(ix)])
             || (prog[s.pc] == Set && s.stk == w + [Vaddr(base), Vi32(ix), v])
    requires base < |s.heap| && s.heap[base].Vsize?
    requires 0 <= ix && s.heap[base].size <= ix && base + ix < HEAP_SIZE
    ensures Step(prog, s) == Err("index past end of array")
  {
    SlotPastEnd(s.heap, base, ix);
    if prog[s.pc] == Get {
      assert (w + [Vaddr(base), Vi32(ix)])[..|w| + 1] == w + [Vaddr(base)];
      assert (w + [Vaddr(base)])[..|w|] == w;
    } else {
      assert (w + [Vaddr(base), Vi32(ix), v])[..|w| + 2] == w + [Vaddr(base), Vi32(ix)];
      assert (w + [Vaddr(base), Vi32(ix)])[..|w| + 1] == w + [Vaddr(base)];
      assert (w + [Vaddr(base)])[..|w|] == w;
    }
  }

  /** Read after write: after `Set` stores v at index ix, `Get` of the same
      index reads v. */
  lemma SetThenGetReadsBack(prog: seq<Instr>, s: State, w: seq<Val>, base: Address, ix: i32, v: Val)
    requires At(prog, s, Set) && s.stk == w + [Vaddr(base), Vi32(ix), v]
    requires ValidIndex(s.heap, base, ix)
    requires s.pc + 2 < U32_LIMIT && s.pc + 1 < |prog| && prog[s.pc + 1] == Get
    requires |w| + 2 <= STK_SIZE
    ensures Step(prog, s).Ok? && Step(prog, s).value.Continue?
    ensures var t := Step(prog, s).value.next.(stk := w + [Vaddr(base), Vi32(ix)]);
      Step(prog, t) == Ok(Continue(Next(t).(stk := w + [v])))
  {
    SetWritesOneSlot(prog, s, w, base, ix, v);
    var t := Step(prog, s).value.next.(stk := w + [Vaddr(base), Vi32(ix)]);
    assert ValidIndex(t.heap, base, ix);
    GetReadsSlot(prog, t, w, base, ix);
  }

  /** Every element of a fresh array reads as the initial value. */
  lemma AllocThenGetReadsInit(prog: seq<Instr>, s: State, w: seq<Val>, n: i32, v: Val, ix: i32)
    requires At(prog, s, Alloc) && s.stk == w + [Vi32(n), v]
    requires 0 <= n && |s.heap| + n + 1 < HEAP_SIZE
    requires 0 <= ix < n
    requires s.pc + 2 < U32_LIMIT && s.pc + 1 < |prog| && prog[s.pc + 1] == Get
    requires |w| + 2 <= STK_SIZE
    ensures Step(prog, s).Ok? && Step(prog, s).value.Continue?
    ensures var t := Step(prog, s).value.next.(stk := w + [Vaddr(|s.heap|), Vi32(ix)]);
      Step(prog, t) == Ok(Continue(Next(t).(stk := w + [v])))
  {
    AllocAppendsBlock(prog, s, w, n, v);
    var base := |s.heap|;
    var t := Step(prog, s).value.next.(stk := w + [Vaddr(base), Vi32(ix)]);
    assert t.heap[base] == Vsize(n);
    assert t.heap[base + ix + 1] == v;
    GetReadsSlot(prog, t, w, base, ix);
  }

  // ---------------------------------------------------------------------
  // Frames and locals
  // ---------------------------------------------------------------------

  /** `SetFrame(i)` saves fp on the stack and sets fp to the stack length
      before the push minus i; it panics when that would be negative. */
  lemma SetFrameSetsFp(prog: seq<Instr>, s: State, i: u32)
    requires At(prog, s, SetFrame(i)) && |s.stk| < STK_SIZE
    ensures i <= |s.stk| ==>
      Step(prog, s) == Ok(Continue(Next(s).(stk := s.stk + [Vloc(s.fp)], fp := |s.stk| - i)))
    ensures i > |s.stk| ==> Step(prog, s) == Panic(SubOverflow)
  {
  }

  /** `Var(i)` pushes a copy of the local at fp+i. */
  lemma VarReadsLocal(prog: seq<Instr>, s: State, i: u32)
    requires At(prog, s, Var(i)) && s.fp + i < |s.stk| < STK_SIZE
    ensures Step(prog, s) == Ok(Continue(Next(s).(stk := s.stk + [s.stk[s.fp + i]])))
  {
  }

  /** `Var(i)` past the top of the stack is an error. */
  lemma VarPastEndFails(prog: seq<Instr>, s: State, i: u32)
    requires At(prog, s, Var(i)) && |s.stk| <= s.fp + i < U32_LIMIT
    ensures Step(prog, s) == Err("variable access past end of stack")
  {
  }

  /** `Store(i)` pops first, then writes the local at fp+i of the shorter
      stack; every other slot is unchanged. */
  lemma StoreWritesLocal(prog: seq<Instr>, s: State, i: u32, w: seq<Val>, v: Val)
    requires At(prog, s, Store(i)) && s.stk == w + [v] && s.fp + i < U32_LIMIT
    ensures s.fp + i < |w| ==> Step(prog, s) == Ok(Continue(Next(s).(stk := w[s.fp + i := v])))
    ensures s.fp + i >= |w| ==> Step(prog, s) == Err("store past end of stack")
  {
    assert (w + [v])[..|w|] == w;
  }

  /** Storing a value into a local and reading the local back gives the
      value. */
  lemma StoreThenVarReadsBack(prog: seq<Instr>, s: State, i: u32, w: seq<Val>, v: Val)
    requires At(prog, s, Store(i)) && s.stk == w + [v] && s.fp + i < |w| < STK_SIZE
    requires At(prog, Next(s), Var(i))
    ensures Exec(prog, s, 2) == Ok(FuelSpent(Next(Next(s)).(stk := w[s.fp + i := v] + [v])))
  {
    StoreWritesLocal(prog, s, i, w, v);
    var s1 := Next(s).(stk := w[s.fp + i := v]);
    ExecContinues(prog, s, s1, 2);
    VarReadsLocal(prog, s1, i);
    ExecContinues(prog, s1, Next(Next(s)).(stk := w[s.fp + i := v] + [v]), 1);
  }

  // ---------------------------------------------------------------------
  // Control flow
  // ---------------------------------------------------------------------

  /** `Call` pops the target, pushes the return address (the already
      incremented pc) and jumps. */
  lemma CallPushesReturnAddress(prog: seq<Instr>, s: State, w: seq<Val>, target: u32)
    requires At(prog, s, Call) && s.stk == w + [Vloc(target)]
    ensures Step(prog, s) == Ok(Continue(s.(pc := target, stk := w + [Vloc(s.pc + 1)])))
  {
    assert (w + [Vloc(target)])[..|w|] == w;
  }

  /** `Call` needs a location. */
  lemma CallNeedsLocation(prog: seq<Instr>, s: State, w: seq<Val>, v: Val)
    requires At(prog, s, Call) && s.stk == w + [v] && !v.Vloc?
    ensures Step(prog, s) == Err("expected loc for call target")
  {
    assert (w + [v])[..|w|] == w;
  }

  /** `Ret` over `... savedFp savedPc vret` cuts the stack down to the
      current fp, restores pc and fp and pushes the return value. */
  lemma RetRestoresFrame(prog: seq<Instr>, s: State, xs: seq<Val>, savedFp: u32, savedPc: u32, vret: Val)
    requires At(prog, s, Ret) && s.stk == xs + [Vloc(savedFp), Vloc(savedPc), vret]
    requires s.fp <= |xs|
    ensures Step(prog, s) == Ok(Continue(s.(pc := savedPc, fp := savedFp, stk := xs[..s.fp] + [vret])))
    ensures |Step(prog, s).value.next.stk| == s.fp + 1
  {
    var st := xs + [Vloc(savedFp), Vloc(savedPc), vret];
    assert st[..|xs| + 2] == xs + [Vloc(savedFp), Vloc(savedPc)];
    assert (xs + [Vloc(savedFp), Vloc(savedPc)])[..|xs| + 1] == xs + [Vloc(savedFp)];
    assert (xs + [Vloc(savedFp)])[..|xs|] == xs;
  }

  /** `Ret` needs a saved pc and fp that are locations below the return
      value, and three values in all. */
  lemma RetNeedsLocations(prog: seq<Instr>, s: State, xs: seq<Val>, vfp: Val, vpc: Val, vret: Val)
    requires At(prog, s, Ret) && s.stk == xs + [vfp, vpc, vret]
    requires !vfp.Vloc? || !vpc.Vloc?
    ensures Step(prog, s) == Err("expected location for pc and fp in return")
  {
    var st := xs + [vfp, vpc, vret];
    assert st[..|xs| + 2] == xs + [vfp, vpc];
    assert (xs + [vfp, vpc])[..|xs| + 1] == xs + [vfp];
    assert (xs + [vfp])[..|xs|] == xs;
  }

  /** `Ret` on fewer than three values is the pop error. */
  lemma RetNeedsThree(prog: seq<Instr>, s: State)
    requires At(prog, s, Ret) && |s.stk| < 3
    ensures Step(prog, s) == Err("attempt to pop empty stack")
  {
  }

  /** `Branch` over `... cond target` jumps to target exactly when cond
      is true. */
  lemma BranchJumpsIffTrue(prog: seq<Instr>, s: State, w: seq<Val>, cond: bool, target: u32)
    requires At(prog, s, Branch) && s.stk == w + [Vbool(cond), Vloc(target)]
    ensures Step(prog, s).Ok? && Step(prog, s).value.Continue?
    ensures Step(prog, s).value.next.stk == w
    ensures Step(prog, s).value.next.pc == (if cond then target else s.pc + 1)
  {
    assert (w + [Vbool(cond), Vloc(target)])[..|w| + 1] == w + [Vbool(cond)];
    assert (w + [Vbool(cond)])[..|w|] == w;
  }

  /** `Branch` needs a location on top and a boolean below it; the target
      is checked first. */
  lemma BranchNeedsLocationAndBool(prog: seq<Instr>, s: State, w: seq<Val>, vcond: Val, vtarget: Val)
    requires At(prog, s, Branch) && s.stk == w + [vcond, vtarget]
    ensures !vtarget.Vloc? ==> Step(prog, s) == Err("expected location")
    ensures vtarget.Vloc? && !vcond.Vbool? ==> Step(prog, s) == Err("expected bool")
  {
    assert (w + [vcond, vtarget])[..|w| + 1] == w + [vcond];
    assert (w + [vcond])[..|w|] == w;
  }

  /** The caller's half of the calling convention: with n arguments on the
      stack, `SetFrame(n); Push(Vloc(f)); Call` saves the caller's fp,
      points fp at the first argument, and enters f with the return
      address on top. */
  lemma CallerEnters(prog: seq<Instr>, s: State, w: seq<Val>, args: seq<Val>, f: u32, fuel: nat)
    requires s.stk == w + args && |w| + |args| + 2 <= STK_SIZE
    requires s.pc + 3 < U32_LIMIT && s.pc + 2 < |prog|
    requires prog[s.pc] == SetFrame(|args|)
    requires prog[s.pc + 1] == Push(Vloc(f))
    requires prog[s.pc + 2] == Call
    ensures Exec(prog, s, fuel + 3) ==
            Exec(prog, State(f, |w|, w + args + [Vloc(s.fp), Vloc(s.pc + 3)], s.heap), fuel)
  {
    var saved := Vloc(s.fp);
    SetFrameSetsFp(prog, s, |args|);
    var s1 := Next(s).(stk := w + args + [saved], fp := |w|);
    assert Step(prog, s) == Ok(Continue(s1));
    var s2 := Next(s1).(stk := w + args + [saved, Vloc(f)]);
    PushAppends(prog, s1, Vloc(f));
    assert (w + args + [saved]) + [Vloc(f)] == w + args + [saved, Vloc(f)];
    CallPushesReturnAddress(prog, s2, w + args + [saved], f);
    assert (w + args + [saved]) + [Vloc(s.pc + 3)] == w + args + [saved, Vloc(s.pc + 3)];
    var s3 := s2.(pc := f, stk := w + args + [saved, Vloc(s.pc + 3)]);
    assert Step(prog, s2) == Ok(Continue(s3));
    ExecContinues(prog, s, s1, fuel + 3);
    ExecContinues(prog, s1, s2, fuel + 2);
    ExecContinues(prog, s2, s3, fuel + 1);
  }

  /** The callee's half: at f, with the caller's frame pointer and return
      address on top of the arguments, `Push(v); Ret` returns to the saved
      pc with the saved fp, the frame from fp upward discarded and v on
      top. */
  lemma CalleeReturns(prog: seq<Instr>, f: u32, heap: seq<Val>, w: seq<Val>, frame: seq<Val>,
                      savedFp: u32, savedPc: u32, v: Val, fuel: nat)
    requires |w| < U32_LIMIT && |w| + |frame| + 2 < STK_SIZE
    requires f + 2 < U32_LIMIT && f + 1 < |prog|
    requires prog[f] == Push(v) && prog[f + 1] == Ret
    ensures Exec(prog, State(f, |w|, w + frame + [Vloc(savedFp), Vloc(savedPc)], heap), fuel + 2)
         == Exec(prog, State(savedPc, savedFp, w + [v], heap), fuel)
  {
    var s := State(f, |w|, w + frame + [Vloc(savedFp), Vloc(savedPc)], heap);
    var s1 := Next(s).(stk := w + frame + [Vloc(savedFp), Vloc(savedPc), v]);
    PushAppends(prog, s, v);
    assert (w + frame + [Vloc(savedFp), Vloc(savedPc)]) + [v] == w + frame + [Vloc(savedFp), Vloc(savedPc), v];
    RetRestoresFrame(prog, s1, w + frame, savedFp, savedPc, v);
    assert (w + frame)[..|w|] == w;
    var s2 := State(savedPc, savedFp, w + [v], heap);
    assert Step(prog, s1) == Ok(Continue(s2));
    ExecContinues(prog, s, s1, fuel + 2);
    ExecContinues(prog, s1, s2, fuel + 1);
  }

  /** The calling convention the executor supports, end to end: a call to
      a callee that runs `Push(v); Ret` resumes after the `Call` with the
      caller's fp restored, the arguments discarded and v on the stack. */
  lemma CallReturnDiscipline(prog: seq<Instr>, s: State, w: seq<Val>, args: seq<Val>, f: u32, v: Val, fuel: nat)
    requires s.stk == w + args && |w| + |args| + 3 <= STK_SIZE
    requires s.pc + 3 < U32_LIMIT && s.pc + 2 < |prog|
    requires prog[s.pc] == SetFrame(|args|)
    requires prog[s.pc + 1] == Push(Vloc(f))
    requires prog[s.pc + 2] == Call
    requires f + 2 < U32_LIMIT && f + 1 < |prog|
    requires prog[f] == Push(v) && prog[f + 1] == Ret
    ensures Exec(prog, s, fuel + 5) == Exec(prog, State(s.pc + 3, s.fp, w + [v], s.heap), fuel)
  {
    CallerEnters(prog, s, w, args, f, fuel + 2);
    CalleeReturns(prog, f, s.heap, w, args, s.fp, s.pc + 3, v, fuel);
  }
}
