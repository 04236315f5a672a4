/** The GrumpyVM instruction set: runtime values, operators and native
    instructions (isa.rs), with the machine-word widths made explicit.
 */
module Isa {
  import opened Results

  type byte = x: int | 0 <= x < 0x100
  type u32 = x: int | 0 <= x < 0x1_0000_0000
  /** The least `i32`. */
  const I32_MIN: int := -0x8000_0000

  /** True of the integers an `i32` can hold. */
  predicate FitsI32(x: int) {
    I32_MIN <= x < -I32_MIN
  }

  type i32 = x: int | I32_MIN <= x < -I32_MIN
  /** `usize` on a 64-bit target. */
  type usize = x: int | 0 <= x < 0x1_0000_0000_0000_0000

  /** Heap addresses. */
  type Address = usize

  /** GrumpyVM values. The first five kinds may appear in programs; `Vsize`
      and `Vaddr` are used internally by the heap. */
  datatype Val =
    | Vunit
    | Vi32(int32: i32)
    | Vbool(boolean: bool)
    | Vloc(loc: u32)
    | Vundef
    | Vsize(size: usize)
    | Vaddr(addr: Address)

  /** A value that may appear in a program, and so in its byte encoding. */
  predicate IsProgramValue(v: Val) {
    !v.Vsize? && !v.Vaddr?
  }

  datatype Unop = Neg

  datatype Binop = Add | Mul | Sub | Div | Lt | Eq

  /** GrumpyVM native instructions, in declaration order. */
  datatype Instr =
    | Push(v: Val)
    | Pop
    | Peek(i: u32)
    | Unary(u: Unop)
    | Binary(b: Binop)
    | Swap
    | Alloc
    | Set
    | Get
    | Var(i: u32)
    | Store(i: u32)
    | SetFrame(i: u32)
    | Call
    | Ret
    | Branch
    | Halt

  /** Try to extract an i32 from a value. */
  function ToI32(v: Val): (r: Option<i32>)
    ensures r.Some? <==> v.Vi32?
    ensures r.Some? ==> v == Vi32(r.value)
  {
    match v
    case Vi32(i) => Some(i)
    case _ => None
  }

  /** Try to extract a bool from a value. */
  function ToBool(v: Val): (r: Option<bool>)
    ensures r.Some? <==> v.Vbool?
    ensures r.Some? ==> v == Vbool(r.value)
  {
    match v
    case Vbool(b) => Some(b)
    case _ => None
  }

  /** Try to extract a location from a value. */
  function ToLoc(v: Val): (r: Option<u32>)
    ensures r.Some? <==> v.Vloc?
    ensures r.Some? ==> v == Vloc(r.value)
  {
    match v
    case Vloc(l) => Some(l)
    case _ => None
  }

  /** Try to extract a heap address from a value. */
  function ToAddress(v: Val): (r: Option<Address>)
    ensures r.Some? <==> v.Vaddr?
    ensures r.Some? ==> v == Vaddr(r.value)
  {
    match v
    case Vaddr(a) => Some(a)
    case _ => None
  }
}
