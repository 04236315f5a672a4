/** Bit-exact byte encoding of values, operators, instructions and programs
    (the `ToBytes` and `FromBytes` impls of isa.rs).

    Every decoder reads from the front of a byte sequence and returns the
    decoded item together with the bytes it left unread, the way the Rust
    decoders advance a shared iterator. Multi-byte integers are 4 bytes,
    big-endian; an `i32` is its two's-complement `u32`.
 */
module Codec {
  import opened Results
  import opened Isa

  const NotEnoughBytes := "not enough bytes"
  const TwoTo31 := 0x8000_0000
  const TwoTo32 := 0x1_0000_0000

  /** Decimal rendering of a byte, as `format!("{}", b)` prints it. */
  function Decimal(n: nat): string
    decreases n
  {
    var d := ['0', '1', '2', '3', '4', '5', '6', '7', '8', '9'][n % 10];
    if n < 10 then [d] else Decimal(n / 10) + [d]
  }

  // ---------------------------------------------------------------------
  // 32-bit integers
  // ---------------------------------------------------------------------

  /** Big-endian bytes of a `u32`. */
  function U32Bytes(x: u32): (r: seq<byte>)
    ensures |r| == 4
  {
    var y1 := x / 0x100;
    var y2 := y1 / 0x100;
    [y2 / 0x100, y2 % 0x100, y1 % 0x100, x % 0x100]
  }

  /** The `u32` whose big-endian bytes are b0 b1 b2 b3. */
  function FromBigEndian(b0: byte, b1: byte, b2: byte, b3: byte): u32 {
    ((b0 * 0x100 + b1) * 0x100 + b2) * 0x100 + b3
  }

  /** Appending a byte below a number and splitting it off again are inverse. */
  lemma ByteDigit(q: nat, r: byte)
    ensures (q * 0x100 + r) / 0x100 == q && (q * 0x100 + r) % 0x100 == r
  {
  }

  /** Big-endian encoding and decoding of a `u32` are inverse. */
  lemma BigEndianBijection(x: u32, b0: byte, b1: byte, b2: byte, b3: byte)
    ensures var e := U32Bytes(x); FromBigEndian(e[0], e[1], e[2], e[3]) == x
    ensures U32Bytes(FromBigEndian(b0, b1, b2, b3)) == [b0, b1, b2, b3]
  {
    var y1 := x / 0x100;
    var y2 := y1 / 0x100;
    assert x == y1 * 0x100 + x % 0x100;
    assert y1 == y2 * 0x100 + y1 % 0x100;
    assert y2 == (y2 / 0x100) * 0x100 + y2 % 0x100;
    ByteDigit(b0, b1);
    ByteDigit(b0 * 0x100 + b1, b2);
    ByteDigit((b0 * 0x100 + b1) * 0x100 + b2, b3);
  }

  /** Reads a big-endian `u32`; fails when fewer than 4 bytes remain. */
  function DecodeU32(bs: seq<byte>): (r: Result<(u32, seq<byte>)>)
    ensures r.Ok? <==> |bs| >= 4
    ensures r.Ok? ==> bs == U32Bytes(r.value.0) + r.value.1
    ensures !r.Ok? ==> r == Err(NotEnoughBytes)
  {
    if |bs| >= 4 then
      var x := FromBigEndian(bs[0], bs[1], bs[2], bs[3]);
      BigEndianBijection(x, bs[0], bs[1], bs[2], bs[3]);
      assert bs == bs[..4] + bs[4..];
      Ok((x, bs[4..]))
    else
      Err(NotEnoughBytes)
  }

  /** A `u32` decodes back from its encoding, leaving what follows. */
  lemma U32RoundTrip(x: u32, rest: seq<byte>)
    ensures DecodeU32(U32Bytes(x) + rest) == Ok((x, rest))
  {
    var bs := U32Bytes(x) + rest;
    var y := DecodeU32(bs).value.0;
    assert bs[..4] == U32Bytes(x) == U32Bytes(y);
    BigEndianBijection(x, 0, 0, 0, 0);
    BigEndianBijection(y, 0, 0, 0, 0);
  }

  /** The `u32` with the same bit pattern as an `i32`. */
  function I32Bits(x: i32): u32 {
    if x < 0 then x + TwoTo32 else x
  }

  /** The `i32` with the same bit pattern as a `u32`. */
  function I32OfBits(u: u32): (x: i32)
    ensures I32Bits(x) == u
  {
    if u >= TwoTo31 then u - TwoTo32 else u
  }

  /** Big-endian two's-complement bytes of an `i32`. */
  function I32Bytes(x: i32): (r: seq<byte>)
    ensures |r| == 4
    ensures x >= 0 ==> r[0] < 0x80
    ensures x < 0 ==> r[0] >= 0x80
  {
    U32Bytes(I32Bits(x))
  }

  /** Reads a big-endian `i32`; fails when fewer than 4 bytes remain. */
  function DecodeI32(bs: seq<byte>): (r: Result<(i32, seq<byte>)>)
    ensures r.Ok? <==> |bs| >= 4
    ensures r.Ok? ==> bs == I32Bytes(r.value.0) + r.value.1
    ensures !r.Ok? ==> r == Err(NotEnoughBytes)
  {
    var p :- DecodeU32(bs);
    Ok((I32OfBits(p.0), p.1))
  }

  /** An `i32` decodes back from its encoding, leaving what follows. */
  lemma I32RoundTrip(x: i32, rest: seq<byte>)
    ensures DecodeI32(I32Bytes(x) + rest) == Ok((x, rest))
  {
    U32RoundTrip(I32Bits(x), rest);
  }

  // ---------------------------------------------------------------------
  // Operators
  // ---------------------------------------------------------------------

  /** The one-byte code of a unary operator. */
  function EncodeUnop(u: Unop): (r: seq<byte>)
    ensures |r| == 1 && r[0] == 0x00
  {
    match u
    case Neg => [0x00]
  }

  /** Reads a unary operator code. */
  function DecodeUnop(bs: seq<byte>): (r: Result<(Unop, seq<byte>)>)
    ensures r.Ok? <==> |bs| > 0 && bs[0] == 0x00
    ensures r.Ok? ==> bs == EncodeUnop(r.value.0) + r.value.1
    ensures |bs| == 0 ==> r == Err(NotEnoughBytes)
    ensures !r.Panic?
  {
    if |bs| == 0 then Err(NotEnoughBytes)
    else if bs[0] == 0x00 then Ok((Neg, bs[1..]))
    else Err("unknown unop code: " + Decimal(bs[0]))
  }

  /** The one-byte code of a binary operator. */
  function BinopCode(b: Binop): byte {
    match b
    case Add => 0x00
    case Mul => 0x01
    case Sub => 0x02
    case Div => 0x03
    case Lt => 0x04
    case Eq => 0x05
  }

  /** The encoding of a binary operator: its code alone. */
  function EncodeBinop(b: Binop): (r: seq<byte>)
    ensures |r| == 1 && r[0] <= 0x05
    ensures forall c: Binop :: BinopCode(c) == r[0] ==> c == b
  {
    [BinopCode(b)]
  }

  /** Reads a binary operator code. */
  function DecodeBinop(bs: seq<byte>): (r: Result<(Binop, seq<byte>)>)
    ensures r.Ok? <==> |bs| > 0 && bs[0] <= 0x05
    ensures r.Ok? ==> bs == EncodeBinop(r.value.0) + r.value.1
    ensures |bs| == 0 ==> r == Err(NotEnoughBytes)
    ensures !r.Panic?
  {
    if |bs| == 0 then Err(NotEnoughBytes)
    else
      var rest := bs[1..];
      match bs[0]
      case 0x00 => Ok((Add, rest))
      case 0x01 => Ok((Mul, rest))
      case 0x02 => Ok((Sub, rest))
      case 0x03 => Ok((Div, rest))
      case 0x04 => Ok((Lt, rest))
      case 0x05 => Ok((Eq, rest))
      case b => Err("unknown binop code: " + Decimal(b))
  }

  /** A unary operator decodes back from its code. */
  lemma UnopRoundTrip(u: Unop, rest: seq<byte>)
    ensures DecodeUnop(EncodeUnop(u) + rest) == Ok((u, rest))
  {
    assert (EncodeUnop(u) + rest)[1..] == rest;
  }

  /** A binary operator decodes back from its code. */
  lemma BinopRoundTrip(b: Binop, rest: seq<byte>)
    ensures DecodeBinop(EncodeBinop(b) + rest) == Ok((b, rest))
  {
    assert (EncodeBinop(b) + rest)[1..] == rest;
  }

  // ---------------------------------------------------------------------
  // Values
  // ---------------------------------------------------------------------

  /** The byte encoding of a program value: a tag byte, then 4 big-endian
      bytes for `Vi32` and `Vloc`. `Vsize` and `Vaddr` have no encoding (the
      Rust encoder panics on them). */
  function EncodeVal(v: Val): (r: seq<byte>)
    requires IsProgramValue(v)
    ensures |r| == (if v.Vi32? || v.Vloc? then 5 else 1)
    ensures r[0] <= 0x05
  {
    match v
    case Vunit => [0x00]
    case Vi32(i) => [0x01] + I32Bytes(i)
    case Vbool(b) => if b then [0x02] else [0x03]
    case Vloc(l) => [0x04] + U32Bytes(l)
    case Vundef => [0x05]
  }

  /** Reads a value: a tag byte, then its operand if it has one. */
  function DecodeVal(bs: seq<byte>): (r: Result<(Val, seq<byte>)>)
    ensures |bs| == 0 ==> r == Err(NotEnoughBytes)
    ensures |bs| > 0 && bs[0] > 0x05 ==> r.Err?
    ensures r.Ok? ==> IsProgramValue(r.value.0) && bs == EncodeVal(r.value.0) + r.value.1
    ensures !r.Panic?
  {
    if |bs| == 0 then Err(NotEnoughBytes)
    else
      var rest := bs[1..];
      assert bs == [bs[0]] + rest;
      match bs[0]
      case 0x00 => Ok((Vunit, rest))
      case 0x01 => var p :- DecodeI32(rest); Ok((Vi32(p.0), p.1))
      case 0x02 => Ok((Vbool(true), rest))
      case 0x03 => Ok((Vbool(false), rest))
      case 0x04 => var p :- DecodeU32(rest); Ok((Vloc(p.0), p.1))
      case 0x05 => Ok((Vundef, rest))
      case b => Err("unknown val code: " + Decimal(b))
  }

  /** Decoding an encoded value gives back the value and consumes exactly
      its encoding. */
  lemma ValRoundTrip(v: Val, rest: seq<byte>)
    requires IsProgramValue(v)
    ensures DecodeVal(EncodeVal(v) + rest) == Ok((v, rest))
  {
    var bs := EncodeVal(v) + rest;
    match v
    case Vi32(i) =>
      assert bs[1..] == I32Bytes(i) + rest;
      I32RoundTrip(i, rest);
    case Vloc(l) =>
      assert bs[1..] == U32Bytes(l) + rest;
      U32RoundTrip(l, rest);
    case Vunit => assert bs[1..] == rest;
    case Vbool(_) => assert bs[1..] == rest;
    case Vundef => assert bs[1..] == rest;
  }

  const UnsupportedVal := "Val::ToBytes: unsupported constructor"

  /** `Val::to_bytes` on any value: `Vsize` and `Vaddr` panic, every other
      value is encoded so that it decodes back. */
  function ValToBytes(v: Val): (r: Result<seq<byte>>)
    ensures r.Ok? <==> IsProgramValue(v)
    ensures !r.Ok? ==> r == Panic(UnsupportedVal)
    ensures r.Ok? ==> DecodeVal(r.value) == Ok((v, []))
  {
    if IsProgramValue(v) then
      ValRoundTrip(v, []);
      assert EncodeVal(v) + [] == EncodeVal(v);
      Ok(EncodeVal(v))
    else
      Panic(UnsupportedVal)
  }

  /** A tag that announces an operand fails when the operand is cut short. */
  lemma ValOperandTruncated(bs: seq<byte>)
    requires 0 < |bs| < 5 && (bs[0] == 0x01 || bs[0] == 0x04)
    ensures DecodeVal(bs) == Err(NotEnoughBytes)
  {
  }

  // ---------------------------------------------------------------------
  // Instructions
  // ---------------------------------------------------------------------

  /** An instruction the encoder accepts: a `Push` carries a program value. */
  predicate Encodable(i: Instr) {
    i.Push? ==> IsProgramValue(i.v)
  }

  /** Opcode byte of each instruction. `Set` is 0x07 and `Get` is 0x08, the
      table the decoder uses and the declaration order of `Instr`. */
  function Opcode(i: Instr): byte {
    match i
    case Push(_) => 0x00
    case Pop => 0x01
    case Peek(_) => 0x02
    case Unary(_) => 0x03
    case Binary(_) => 0x04
    case Swap => 0x05
    case Alloc => 0x06
    case Set => 0x07
    case Get => 0x08
    case Var(_) => 0x09
    case Store(_) => 0x0A
    case SetFrame(_) => 0x0B
    case Call => 0x0C
    case Ret => 0x0D
    case Branch => 0x0E
    case Halt => 0x0F
  }

  /** Operand bytes of an instruction (empty for those without one). */
  function Operand(i: Instr): seq<byte>
    requires Encodable(i)
  {
    match i
    case Push(v) => EncodeVal(v)
    case Peek(n) => U32Bytes(n)
    case Unary(u) => EncodeUnop(u)
    case Binary(b) => EncodeBinop(b)
    case Var(n) => U32Bytes(n)
    case Store(n) => U32Bytes(n)
    case SetFrame(n) => U32Bytes(n)
    case _ => []
  }

  /** The instruction encoder with the opcode table the decoder reads. */
  function EncodeInstr(i: Instr): (r: seq<byte>)
    requires Encodable(i)
    ensures 1 <= |r| <= 6 && r[0] <= 0x0F
  {
    [Opcode(i)] + Operand(i)
  }

  /** The instruction encoder as the source writes it: identical to
      `EncodeInstr` except that `Get` is written as 0x07 and `Set` as 0x08. */
  function EncodeInstrAsWritten(i: Instr): (r: seq<byte>)
    requires Encodable(i)
    ensures (i.Get? || i.Set?) ==> r == EncodeInstr(SwapGetSet(i))
    ensures !(i.Get? || i.Set?) ==> r == EncodeInstr(i)
  {
    match i
    case Get => [0x07]
    case Set => [0x08]
    case _ => EncodeInstr(i)
  }

  /** The instruction an opcode without operand stands for. */
  function Nullary(op: byte): (r: Option<Instr>)
    ensures r.Some? ==> Encodable(r.value) && Opcode(r.value) == op && Operand(r.value) == []
    ensures op > 0x0F ==> r.None?
  {
    match op
    case 0x01 => Some(Pop)
    case 0x05 => Some(Swap)
    case 0x06 => Some(Alloc)
    case 0x07 => Some(Set)
    case 0x08 => Some(Get)
    case 0x0C => Some(Call)
    case 0x0D => Some(Ret)
    case 0x0E => Some(Branch)
    case 0x0F => Some(Halt)
    case _ => None
  }

  /** Reads the operand that follows opcode `op` and builds the instruction;
      an opcode outside the table is an error naming it. */
  function DecodeOperand(op: byte, rest: seq<byte>): (r: Result<(Instr, seq<byte>)>)
    ensures op > 0x0F ==> r.Err?
    ensures r.Ok? ==> Encodable(r.value.0) && Opcode(r.value.0) == op
    ensures r.Ok? ==> rest == Operand(r.value.0) + r.value.1
    ensures !r.Panic?
  {
    match op
    case 0x00 => var p :- DecodeVal(rest); Ok((Push(p.0), p.1))
    case 0x02 => var p :- DecodeU32(rest); Ok((Peek(p.0), p.1))
    case 0x03 => var p :- DecodeUnop(rest); Ok((Unary(p.0), p.1))
    case 0x04 => var p :- DecodeBinop(rest); Ok((Binary(p.0), p.1))
    case 0x09 => var p :- DecodeU32(rest); Ok((Var(p.0), p.1))
    case 0x0A => var p :- DecodeU32(rest); Ok((Store(p.0), p.1))
    case 0x0B => var p :- DecodeU32(rest); Ok((SetFrame(p.0), p.1))
    case b =>
      match Nullary(b)
      case Some(i) => assert rest == [] + rest; Ok((i, rest))
      case None => Err("unknown instr code: " + Decimal(b))
  }

  /** Reads one instruction: its opcode byte, then its operand. */
  function DecodeInstr(bs: seq<byte>): (r: Result<(Instr, seq<byte>)>)
    ensures |bs| == 0 ==> r == Err(NotEnoughBytes)
    ensures |bs| > 0 && bs[0] > 0x0F ==> r.Err?
    ensures r.Ok? ==> Encodable(r.value.0) && bs == EncodeInstr(r.value.0) + r.value.1
    ensures !r.Panic?
  {
    if |bs| == 0 then Err(NotEnoughBytes)
    else
      var p :- DecodeOperand(bs[0], bs[1..]);
      EncodedInstrJoins(p.0, p.1, bs);
      Ok(p)
  }

  /** The converse of `EncodedInstrSplits`: an opcode followed by its
      operand is the instruction's encoding. */
  lemma EncodedInstrJoins(i: Instr, rest: seq<byte>, bs: seq<byte>)
    requires Encodable(i) && |bs| > 0
    requires bs[0] == Opcode(i) && bs[1..] == Operand(i) + rest
    ensures bs == EncodeInstr(i) + rest
  {
    assert bs == [bs[0]] + bs[1..];
  }

  /** Decoding an encoded instruction gives back the instruction and
      consumes exactly its encoding. */
  lemma InstrRoundTrip(i: Instr, rest: seq<byte>)
    requires Encodable(i)
    ensures DecodeInstr(EncodeInstr(i) + rest) == Ok((i, rest))
  {
    EncodedInstrSplits(i, rest);
    match i
    case Push(v) => ValRoundTrip(v, rest);
    case Peek(n) => U32RoundTrip(n, rest);
    case Var(n) => U32RoundTrip(n, rest);
    case Store(n) => U32RoundTrip(n, rest);
    case SetFrame(n) => U32RoundTrip(n, rest);
    case Unary(u) => UnopRoundTrip(u, rest);
    case Binary(b) => BinopRoundTrip(b, rest);
    case _ =>
  }

  /** An encoded instruction starts with its opcode; its operand follows. */
  lemma EncodedInstrSplits(i: Instr, rest: seq<byte>)
    requires Encodable(i)
    ensures var bs := EncodeInstr(i) + rest; |bs| > 0 && bs[0] == Opcode(i) && bs[1..] == Operand(i) + rest
  {
    assert EncodeInstr(i) + rest == [Opcode(i)] + (Operand(i) + rest);
  }

  /** `Instr::to_bytes` on any instruction, with the corrected opcode table:
      a `Push` of a heap value panics in the value encoder, every other
      instruction is encoded so that it decodes back. */
  function InstrToBytes(i: Instr): (r: Result<seq<byte>>)
    ensures r.Ok? <==> Encodable(i)
    ensures !r.Ok? ==> r == Panic(UnsupportedVal)
    ensures r.Ok? ==> DecodeInstr(r.value) == Ok((i, []))
  {
    if Encodable(i) then
      InstrRoundTrip(i, []);
      assert EncodeInstr(i) + [] == EncodeInstr(i);
      Ok(EncodeInstr(i))
    else
      Panic(UnsupportedVal)
  }

  /** `Get` and `Set` exchanged; every other instruction unchanged. */
  function SwapGetSet(i: Instr): Instr {
    match i
    case Get => Set
    case Set => Get
    case _ => i
  }

  /** With the encoder as written the round trip holds for every
      instruction except `Get` and `Set`, which come back exchanged. */
  lemma AsWrittenRoundTrip(i: Instr, rest: seq<byte>)
    requires Encodable(i)
    ensures DecodeInstr(EncodeInstrAsWritten(i) + rest) == Ok((SwapGetSet(i), rest))
    ensures (DecodeInstr(EncodeInstrAsWritten(i) + rest) == Ok((i, rest))) <==> !(i.Get? || i.Set?)
  {
    assert EncodeInstrAsWritten(i) == EncodeInstr(SwapGetSet(i));
    InstrRoundTrip(SwapGetSet(i), rest);
  }

  /** The smallest witness: the one-byte encoding of `Get` decodes as `Set`. */
  lemma AsWrittenGetDecodesAsSet()
    ensures EncodeInstrAsWritten(Get) == [0x07]
    ensures DecodeInstr(EncodeInstrAsWritten(Get)) == Ok((Set, []))
    ensures DecodeInstr(EncodeInstrAsWritten(Set)) == Ok((Get, []))
  {
    AsWrittenRoundTrip(Get, []);
    AsWrittenRoundTrip(Set, []);
    assert EncodeInstrAsWritten(Get) + [] == EncodeInstrAsWritten(Get);
    assert EncodeInstrAsWritten(Set) + [] == EncodeInstrAsWritten(Set);
  }

  // ---------------------------------------------------------------------
  // Programs
  // ---------------------------------------------------------------------

  /** Every instruction of the program is encodable. */
  predicate AllEncodable(p: seq<Instr>) {
    forall k | 0 <= k < |p| :: Encodable(p[k])
  }

  /** The instruction encodings of a program, back to back. */
  function EncodeInstrs(p: seq<Instr>): seq<byte>
    requires AllEncodable(p)
  {
    if p == [] then [] else EncodeInstr(p[0]) + EncodeInstrs(p[1..])
  }

  /** The program format the decoder reads: the instruction count as a
      big-endian `u32`, then every instruction's encoding. */
  function EncodeProgram(p: seq<Instr>): (r: seq<byte>)
    requires |p| < TwoTo32 && AllEncodable(p)
    ensures |r| >= 4 + |p|
  {
    EncodeInstrsLength(p);
    U32Bytes(|p|) + EncodeInstrs(p)
  }

  /** Each instruction takes at least one byte. */
  lemma {:induction false} EncodeInstrsLength(p: seq<Instr>)
    requires AllEncodable(p)
    ensures |EncodeInstrs(p)| >= |p|
  {
    if p != [] {
      EncodeInstrsLength(p[1..]);
    }
  }

  /** Reads exactly `n` instructions, one after another. */
  function DecodeInstrs(n: nat, bs: seq<byte>): (r: Result<(seq<Instr>, seq<byte>)>)
    ensures r.Ok? ==> |r.value.0| == n && AllEncodable(r.value.0)
    ensures r.Ok? ==> bs == EncodeInstrs(r.value.0) + r.value.1
    ensures n > 0 && |bs| == 0 ==> r == Err(NotEnoughBytes)
    ensures !r.Panic?
    decreases n
  {
    if n == 0 then Ok(([], bs))
    else
      var first :- DecodeInstr(bs);
      var others :- DecodeInstrs(n - 1, first.1);
      var p := [first.0] + others.0;
      assert p[1..] == others.0;
      Ok((p, others.1))
  }

  /** Reads a program: the big-endian instruction count `n`, then exactly
      `n` instructions. Bytes after the last instruction are left unread. */
  function DecodeProgram(bs: seq<byte>): (r: Result<(seq<Instr>, seq<byte>)>)
    ensures |bs| < 4 ==> r == Err(NotEnoughBytes)
    ensures r.Ok? ==> |r.value.0| < TwoTo32 && AllEncodable(r.value.0)
    ensures r.Ok? ==> bs == EncodeProgram(r.value.0) + r.value.1
    ensures !r.Panic?
  {
    var count :- DecodeU32(bs);
    var instrs :- DecodeInstrs(count.0, count.1);
    Ok(instrs)
  }

  /** A run of encoded instructions decodes back, leaving what follows. */
  lemma {:induction false} InstrsRoundTrip(p: seq<Instr>, rest: seq<byte>)
    requires AllEncodable(p)
    ensures DecodeInstrs(|p|, EncodeInstrs(p) + rest) == Ok((p, rest))
  {
    if p != [] {
      var tail := EncodeInstrs(p[1..]) + rest;
      assert EncodeInstrs(p) + rest == EncodeInstr(p[0]) + tail;
      InstrRoundTrip(p[0], tail);
      InstrsRoundTrip(p[1..], rest);
      var bs := EncodeInstrs(p) + rest;
      assert DecodeInstr(bs) == Ok((p[0], tail));
      assert DecodeInstrs(|p| - 1, tail) == Ok((p[1..], rest));
      assert [p[0]] + p[1..] == p;
      assert DecodeInstrs(|p|, bs) == Ok(([p[0]] + p[1..], rest));
    } else {
      assert EncodeInstrs(p) + rest == rest;
    }
  }

  /** Decoding an encoded program gives back the program and leaves every
      byte after it unread. */
  lemma ProgramRoundTrip(p: seq<Instr>, rest: seq<byte>)
    requires |p| < TwoTo32 && AllEncodable(p)
    ensures DecodeProgram(EncodeProgram(p) + rest) == Ok((p, rest))
  {
    var tail := EncodeInstrs(p) + rest;
    assert EncodeProgram(p) + rest == U32Bytes(|p|) + tail;
    U32RoundTrip(|p|, tail);
    InstrsRoundTrip(p, rest);
  }

  /** Every strict prefix of an encoded program is rejected. */
  lemma ProgramPrefixRejected(p: seq<Instr>, k: nat)
    requires |p| < TwoTo32 && AllEncodable(p)
    requires k < |EncodeProgram(p)|
    ensures DecodeProgram(EncodeProgram(p)[..k]).Err?
  {
    var whole := EncodeProgram(p);
    var r := DecodeProgram(whole[..k]);
    if r.Ok? {
      SplitJoin(whole, k);
      DecodedPrefixExtends(whole[..k], whole[k..], r.value.0, r.value.1);
      ProgramRoundTrip(p, []);
      assert false;
    }
  }

  /** A successful decode survives appending bytes: they join the unread rest. */
  lemma DecodedPrefixExtends(bs: seq<byte>, more: seq<byte>, q: seq<Instr>, left: seq<byte>)
    requires DecodeProgram(bs) == Ok((q, left))
    ensures DecodeProgram(bs + more) == Ok((q, left + more))
  {
    AppendAssoc(EncodeProgram(q), left, more);
    ProgramRoundTrip(q, left + more);
  }

  /** Sequence concatenation is associative. */
  lemma AppendAssoc<T>(a: seq<T>, b: seq<T>, c: seq<T>)
    ensures (a + b) + c == a + (b + c)
  {
  }

  /** A sequence is its prefix followed by a non-empty suffix. */
  lemma SplitJoin<T>(s: seq<T>, k: nat)
    requires k < |s|
    ensures s[..k] + s[k..] == s + [] && |s[k..]| > 0
  {
  }
}
