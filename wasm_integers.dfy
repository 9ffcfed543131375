/** Reference semantics of the WebAssembly integer operators that the numerical tests
    exercise (WasmTests.swift, `WasmNumericalTests`): the fifteen binary operators, the three
    bit counters and the ten comparisons plus `eqz`, at widths 32 and 64.

    The definitions follow section 4.3.2 ("Integer Operations") of the WebAssembly Core
    Specification: values are bit patterns of width N (`bv32`, `bv64`), arithmetic wraps modulo
    2^N, shift and rotate counts are taken modulo N, signed operators read the pattern as two's
    complement, and division traps on a zero divisor or when a signed quotient does not fit.
    Signed arithmetic is written on the bits (magnitude and negation, complemented shift);
    the signed comparisons compare the two's complement readings, as the standard's
    `signed_N` does. */
module WasmIntegers {

  datatype IntegerBinaryOp =
    Add | Sub | Mul | DivS | DivU | RemS | RemU | And | Or | Xor | Shl | ShrS | ShrU | Rotl | Rotr

  datatype IntegerUnaryOp = Clz | Ctz | Popcnt

  datatype IntegerCompareOp = Eq | Ne | LtS | LtU | GtS | GtU | LeS | LeU | GeS | GeU

  /** The result of an operator: a value, or a trap that aborts the Wasm function. */
  datatype Outcome<T> = Value(value: T) | Trap

  predicate IsDivision(op: IntegerBinaryOp) {
    op == DivS || op == DivU || op == RemS || op == RemU
  }

  // ---------------------------------------------------------------- width 32

  const SIGN32: bv32 := 0x8000_0000

  /** The two's complement reading of a 32-bit pattern, as JavaScript prints an i32 result. */
  function Signed32(x: bv32): int {
    if x < SIGN32 then x as int else x as int - 0x1_0000_0000
  }

  /** The magnitude of a pattern read as signed (2^31 for the most negative value). */
  function Magnitude32(x: bv32): bv32 {
    if x < SIGN32 then x else -x
  }

  function DivS32(a: bv32, b: bv32): bv32
    requires b != 0
  {
    var q := Magnitude32(a) / Magnitude32(b);
    if (a < SIGN32) == (b < SIGN32) then q else -q
  }

  /** Signed remainder: the magnitude of the unsigned remainder, with the dividend's sign. */
  function RemS32(a: bv32, b: bv32): bv32
    requires b != 0
  {
    var m := Magnitude32(a) % Magnitude32(b);
    if a < SIGN32 then m else -m
  }

  /** Arithmetic shift right: the sign bit is copied into the vacated positions. */
  function ShrS32(a: bv32, k: bv32): bv32
    requires k < 32
  {
    if a < SIGN32 then a >> k else !((!a) >> k)
  }

  function Rotl32(a: bv32, b: bv32): bv32 {
    var k := b & 31;
    (a << k) | (a >> (32 - k))
  }

  function Rotr32(a: bv32, b: bv32): bv32 {
    var k := b & 31;
    (a >> k) | (a << (32 - k))
  }

  /** Whether `i32.<op>` traps: on a zero divisor, and on the one signed quotient that
      does not fit, INT32_MIN / -1. */
  predicate Traps32(op: IntegerBinaryOp, a: bv32, b: bv32) {
    (IsDivision(op) && b == 0) || (op == DivS && a == SIGN32 && b == 0xFFFF_FFFF)
  }

  /** The value of a non-trapping `i32.<op>`. */
  function Apply32(op: IntegerBinaryOp, a: bv32, b: bv32): bv32
    requires !Traps32(op, a, b)
  {
    match op
    case Add => a + b
    case Sub => a - b
    case Mul => a * b
    case DivS => DivS32(a, b)
    case DivU => a / b
    case RemS => RemS32(a, b)
    case RemU => a % b
    case And => a & b
    case Or => a | b
    case Xor => a ^ b
    case Shl => a << (b & 31)
    case ShrS => ShrS32(a, b & 31)
    case ShrU => a >> (b & 31)
    case Rotl => Rotl32(a, b)
    case Rotr => Rotr32(a, b)
  }

  /** `i32.<op>`: traps exactly on a zero divisor and on INT32_MIN / -1, and produces a
      value in every other case. */
  function I32Binary(op: IntegerBinaryOp, a: bv32, b: bv32): (r: Outcome<bv32>)
    ensures r.Trap? <==> (IsDivision(op) && b == 0) || (op == DivS && a == SIGN32 && b == 0xFFFF_FFFF)
  {
    if Traps32(op, a, b) then Trap else Value(Apply32(op, a, b))
  }

  /** The number of significant bits among the low `n` bits of `x`. */
  function BitLength32(x: bv32, n: nat): (r: nat)
    ensures r <= n
    ensures x == 0 ==> r == 0
    ensures x != 0 && n > 0 ==> r > 0
  {
    if n == 0 || x == 0 then 0 else 1 + BitLength32(x >> 1, n - 1)
  }

  /** The number of trailing zero bits among the low `n` bits of `x`. */
  function TrailingZeros32(x: bv32, n: nat): (r: nat)
    ensures r <= n
    ensures x == 0 ==> r == n
    ensures x & 1 == 1 ==> r == 0
  {
    if n == 0 || x == 0 then n
    else if x & 1 == 1 then 0
    else 1 + TrailingZeros32(x >> 1, n - 1)
  }

  /** The number of one bits among the low `n` bits of `x`. */
  function OneBits32(x: bv32, n: nat): (r: nat)
    ensures r <= n
    ensures x == 0 ==> r == 0
    ensures x & 1 == 1 && n > 0 ==> r > 0
  {
    if n == 0 || x == 0 then 0
    else
      var rest := OneBits32(x >> 1, n - 1);
      if x & 1 == 1 then 1 + rest else rest
  }

  /** `i32.clz`, `i32.ctz`, `i32.popcnt`: each count lies in 0..32; clz is 32 exactly for
      the zero pattern; the zero pattern has 32 trailing zeros and no one bits; an odd pattern
      has no trailing zero and at least one one bit. */
  function I32Unary(op: IntegerUnaryOp, a: bv32): (r: nat)
    ensures r <= 32
    ensures op == Clz ==> (r == 32 <==> a == 0)
    ensures op == Ctz ==> (a == 0 ==> r == 32) && (a & 1 == 1 ==> r == 0)
    ensures op == Popcnt ==> (a == 0 ==> r == 0) && (a & 1 == 1 ==> r > 0)
  {
    match op
    case Clz => 32 - BitLength32(a, 32)
    case Ctz => TrailingZeros32(a, 32)
    case Popcnt => OneBits32(a, 32)
  }

  /** Signed less-than: the order of the two's complement readings. A pattern with the sign
      bit set reads as negative, so it lies below every pattern without it. */
  predicate LessSigned32(a: bv32, b: bv32)
    ensures a >= SIGN32 && b < SIGN32 ==> LessSigned32(a, b)
  {
    NegativeIsSignBit32(a);
    NegativeIsSignBit32(b);
    Signed32(a) < Signed32(b)
  }

  function Bool32(c: bool): bv32 {
    if c then 1 else 0
  }

  /** `i32.<relop>`: 1 when the relation holds, 0 otherwise. */
  function I32Compare(op: IntegerCompareOp, a: bv32, b: bv32): (r: bv32)
    ensures r == 1 <==> Holds32(op, a, b)
    ensures r == 0 <==> !Holds32(op, a, b)
  {
    Bool32(Holds32(op, a, b))
  }

  /** Whether the relation `op` holds between two 32-bit patterns. */
  predicate Holds32(op: IntegerCompareOp, a: bv32, b: bv32) {
    match op
    case Eq => a == b
    case Ne => a != b
    case LtS => LessSigned32(a, b)
    case LtU => a < b
    case GtS => LessSigned32(b, a)
    case GtU => a > b
    case LeS => !LessSigned32(b, a)
    case LeU => a <= b
    case GeS => !LessSigned32(a, b)
    case GeU => a >= b
  }

  /** `i32.eqz`: 1 exactly for the zero pattern. */
  function I32Eqz(a: bv32): (r: bv32)
    ensures r == 1 <==> a == 0
    ensures r == 0 <==> a != 0
  {
    Bool32(a == 0)
  }

  // ---------------------------------------------------------------- width 64

  const SIGN64: bv64 := 0x8000_0000_0000_0000

  /** The two's complement reading of a 64-bit pattern, as a JavaScript BigInt prints it. */
  function Signed64(x: bv64): int {
    if x < SIGN64 then x as int else x as int - 0x1_0000_0000_0000_0000
  }

  function Magnitude64(x: bv64): bv64 {
    if x < SIGN64 then x else -x
  }

  function DivS64(a: bv64, b: bv64): bv64
    requires b != 0
  {
    var q := Magnitude64(a) / Magnitude64(b);
    if (a < SIGN64) == (b < SIGN64) then q else -q
  }

  function RemS64(a: bv64, b: bv64): bv64
    requires b != 0
  {
    var m := Magnitude64(a) % Magnitude64(b);
    if a < SIGN64 then m else -m
  }

  function ShrS64(a: bv64, k: bv64): bv64
    requires k < 64
  {
    if a < SIGN64 then a >> k else !((!a) >> k)
  }

  function Rotl64(a: bv64, b: bv64): bv64 {
    var k := b & 63;
    (a << k) | (a >> (64 - k))
  }

  function Rotr64(a: bv64, b: bv64): bv64 {
    var k := b & 63;
    (a >> k) | (a << (64 - k))
  }

  predicate Traps64(op: IntegerBinaryOp, a: bv64, b: bv64) {
    (IsDivision(op) && b == 0) || (op == DivS && a == SIGN64 && b == 0xFFFF_FFFF_FFFF_FFFF)
  }

  /** The value of a non-trapping `i64.<op>`. */
  function Apply64(op: IntegerBinaryOp, a: bv64, b: bv64): bv64
    requires !Traps64(op, a, b)
  {
    match op
    case Add => a + b
    case Sub => a - b
    case Mul => a * b
    case DivS => DivS64(a, b)
    case DivU => a / b
    case RemS => RemS64(a, b)
    case RemU => a % b
    case And => a & b
    case Or => a | b
    case Xor => a ^ b
    case Shl => a << (b & 63)
    case ShrS => ShrS64(a, b & 63)
    case ShrU => a >> (b & 63)
    case Rotl => Rotl64(a, b)
    case Rotr => Rotr64(a, b)
  }

  /** `i64.<op>`: traps exactly on a zero divisor and on INT64_MIN / -1. */
  function I64Binary(op: IntegerBinaryOp, a: bv64, b: bv64): (r: Outcome<bv64>)
    ensures r.Trap? <==> (IsDivision(op) && b == 0) || (op == DivS && a == SIGN64 && b == 0xFFFF_FFFF_FFFF_FFFF)
  {
    if Traps64(op, a, b) then Trap else Value(Apply64(op, a, b))
  }

  /** The low and the high 32 bits of a 64-bit pattern. */
  function Low(x: bv64): bv32 {
    (x & 0xFFFF_FFFF) as bv32
  }

  function High(x: bv64): bv32 {
    (x >> 32) as bv32
  }

  lemma ZeroHalves(x: bv64)
    ensures x == 0 <==> Low(x) == 0 && High(x) == 0
  {
  }

  /** `i64.clz`, `i64.ctz`, `i64.popcnt`, computed from the two halves: leading zeros run
      from the high half into the low one, trailing zeros from the low half into the high one,
      and one bits add up. */
  function I64Unary(op: IntegerUnaryOp, a: bv64): (r: nat)
    ensures r <= 64
    ensures op == Clz ==> (r == 64 <==> a == 0)
    ensures op == Ctz ==> (a == 0 ==> r == 64)
    ensures op == Popcnt ==> (a == 0 ==> r == 0)
  {
    ZeroHalves(a);
    var lo, hi := Low(a), High(a);
    match op
    case Clz => if hi == 0 then 32 + I32Unary(Clz, lo) else I32Unary(Clz, hi)
    case Ctz => if lo == 0 then 32 + I32Unary(Ctz, hi) else I32Unary(Ctz, lo)
    case Popcnt => I32Unary(Popcnt, lo) + I32Unary(Popcnt, hi)
  }

  predicate LessSigned64(a: bv64, b: bv64)
    ensures a >= SIGN64 && b < SIGN64 ==> LessSigned64(a, b)
  {
    NegativeIsSignBit64(a);
    NegativeIsSignBit64(b);
    Signed64(a) < Signed64(b)
  }

  function Bool64(c: bool): bv64 {
    if c then 1 else 0
  }

  /** `i64.<relop>`: the result is an i32, 1 or 0. */
  function I64Compare(op: IntegerCompareOp, a: bv64, b: bv64): (r: bv32)
    ensures r == 1 <==> Holds64(op, a, b)
    ensures r == 0 <==> !Holds64(op, a, b)
  {
    Bool32(Holds64(op, a, b))
  }

  predicate Holds64(op: IntegerCompareOp, a: bv64, b: bv64) {
    match op
    case Eq => a == b
    case Ne => a != b
    case LtS => LessSigned64(a, b)
    case LtU => a < b
    case GtS => LessSigned64(b, a)
    case GtU => a > b
    case LeS => !LessSigned64(b, a)
    case LeU => a <= b
    case GeS => !LessSigned64(a, b)
    case GeU => a >= b
  }

  function I64Eqz(a: bv64): (r: bv32)
    ensures r == 1 <==> a == 0
    ensures r == 0 <==> a != 0
  {
    Bool32(a == 0)
  }

  // ---------------------------------------------------------------- laws

  /** The signed reading is negative exactly when the sign bit is set. */
  lemma NegativeIsSignBit32(a: bv32)
    ensures Signed32(a) < 0 <==> a >= SIGN32
  {
  }

  lemma NegativeIsSignBit64(a: bv64)
    ensures Signed64(a) < 0 <==> a >= SIGN64
  {
  }

  /** An arithmetic right shift keeps the sign of its operand in the signed reading; a
      logical one by a non-zero count yields a non-negative value. */
  lemma ShrSKeepsSign32(a: bv32, k: bv32)
    requires k < 32
    ensures Signed32(ShrS32(a, k)) < 0 <==> Signed32(a) < 0
  {
    NegativeIsSignBit32(a);
    NegativeIsSignBit32(ShrS32(a, k));
  }

  lemma ShrUNonNegative32(a: bv32, k: bv32)
    requires 0 < k < 32
    ensures Signed32(a >> k) >= 0
  {
    NegativeIsSignBit32(a >> k);
  }

  lemma ShrSKeepsSign64(a: bv64, k: bv64)
    requires k < 64
    ensures Signed64(ShrS64(a, k)) < 0 <==> Signed64(a) < 0
  {
    NegativeIsSignBit64(a);
    NegativeIsSignBit64(ShrS64(a, k));
  }

  lemma ShrUNonNegative64(a: bv64, k: bv64)
    requires 0 < k < 64
    ensures Signed64(a >> k) >= 0
  {
    NegativeIsSignBit64(a >> k);
  }
}
