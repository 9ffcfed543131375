/** The integer test vectors of `WasmNumericalTests` (WasmTests.swift), proved against the
    reference semantics in `WasmIntegers`.

    A test loads its operands as JavaScript numbers (i32) or BigInts (i64); the engine turns
    each into the two's complement bit pattern of that width, which is what the named
    constants below hold (`InputsAreTheTestLiterals` says which literal each one is). The
    engine then prints the result with `toString`, that is, the pattern read as signed:
    `Printed32`/`Printed64`. */
module WasmNumericalTests {
  import opened WasmIntegers

  const NEG1_32: bv32 := 0xFFFF_FFFF
  const NEG3_32: bv32 := 0xFFFF_FFFD
  const NEG4_32: bv32 := 0xFFFF_FFFC
  const NEG8_32: bv32 := 0xFFFF_FFF8
  const NEG16_32: bv32 := 0xFFFF_FFF0
  const NEG17_32: bv32 := 0xFFFF_FFEF

  const NEG1_64: bv64 := 0xFFFF_FFFF_FFFF_FFFF
  const NEG3_64: bv64 := 0xFFFF_FFFF_FFFF_FFFD
  const NEG4_64: bv64 := 0xFFFF_FFFF_FFFF_FFFC
  const NEG8_64: bv64 := 0xFFFF_FFFF_FFFF_FFF8
  const NEG16_64: bv64 := 0xFFFF_FFFF_FFFF_FFF0
  const NEG17_64: bv64 := 0xFFFF_FFFF_FFFF_FFEF

  /** What the test prints for a call: the signed reading of the value (a trap would throw). */
  function Printed32(r: Outcome<bv32>): Outcome<int> {
    match r
    case Value(v) => Value(Signed32(v))
    case Trap => Trap
  }

  function Printed64(r: Outcome<bv64>): Outcome<int> {
    match r
    case Value(v) => Value(Signed64(v))
    case Trap => Trap
  }

  lemma InputsAreTheTestLiterals()
    ensures Signed32(NEG1_32) == -1 && Signed32(NEG3_32) == -3 && Signed32(NEG4_32) == -4
    ensures Signed32(NEG8_32) == -8 && Signed32(NEG16_32) == -16 && Signed32(NEG17_32) == -17
    ensures Signed64(NEG1_64) == -1 && Signed64(NEG3_64) == -3 && Signed64(NEG4_64) == -4
    ensures Signed64(NEG8_64) == -8 && Signed64(NEG16_64) == -16 && Signed64(NEG17_64) == -17
  {
  }

  // ------------------------------------------------------------- binary operators, i64

  lemma I64Arithmetic()
    ensures Printed64(I64Binary(Add, 1, 1)) == Value(2)
    ensures Printed64(I64Binary(Sub, 1, 1)) == Value(0)
    ensures Printed64(I64Binary(Mul, 2, 4)) == Value(8)
  {
  }

  lemma I64Division()
    ensures Printed64(I64Binary(DivS, NEG8_64, NEG4_64)) == Value(2)
    ensures Printed64(I64Binary(DivU, NEG16_64, 4)) == Value(4611686018427387900)
    ensures Printed64(I64Binary(RemS, NEG17_64, 4)) == Value(-1)
    ensures Printed64(I64Binary(RemU, NEG17_64, 4)) == Value(3)
  {
  }

  lemma I64Bitwise()
    ensures Printed64(I64Binary(And, 1, 3)) == Value(1)
    ensures Printed64(I64Binary(Or, 1, 4)) == Value(5)
    ensures Printed64(I64Binary(Xor, 3, 5)) == Value(6)
  {
    assert Apply64(And, 1, 3) == 1 && Apply64(Or, 1, 4) == 5 && Apply64(Xor, 3, 5) == 6;
    assert I64Binary(And, 1, 3) == Value(1);
    assert I64Binary(Or, 1, 4) == Value(5);
    assert I64Binary(Xor, 3, 5) == Value(6);
    assert Signed64(1) == 1 && Signed64(5) == 5 && Signed64(6) == 6;
  }

  lemma I64Shifts()
    ensures Printed64(I64Binary(Shl, 3, 5)) == Value(96)
    ensures Printed64(I64Binary(ShrS, NEG3_64, 1)) == Value(-2)
    ensures Printed64(I64Binary(ShrU, NEG3_64, 1)) == Value(9223372036854775806)
    ensures Printed64(I64Binary(Rotl, NEG3_64, 1)) == Value(-5)
    ensures Printed64(I64Binary(Rotr, 1, 1)) == Value(-9223372036854775808)
  {
  }

  // ------------------------------------------------------------- binary operators, i32

  lemma I32Arithmetic()
    ensures Printed32(I32Binary(Add, 1, 1)) == Value(2)
    ensures Printed32(I32Binary(Sub, 1, 1)) == Value(0)
    ensures Printed32(I32Binary(Mul, 2, 4)) == Value(8)
  {
  }

  lemma I32Division()
    ensures Printed32(I32Binary(DivS, NEG8_32, NEG4_32)) == Value(2)
    ensures Printed32(I32Binary(DivU, NEG16_32, 4)) == Value(1073741820)
    ensures Printed32(I32Binary(RemS, NEG17_32, 4)) == Value(-1)
    ensures Printed32(I32Binary(RemU, NEG17_32, 4)) == Value(3)
  {
  }

  lemma I32Bitwise()
    ensures Printed32(I32Binary(And, 1, 3)) == Value(1)
    ensures Printed32(I32Binary(Or, 1, 4)) == Value(5)
    ensures Printed32(I32Binary(Xor, 3, 5)) == Value(6)
  {
  }

  lemma I32Shifts()
    ensures Printed32(I32Binary(Shl, 3, 5)) == Value(96)
    ensures Printed32(I32Binary(ShrS, NEG3_32, 1)) == Value(-2)
    ensures Printed32(I32Binary(ShrU, NEG3_32, 1)) == Value(2147483646)
    ensures Printed32(I32Binary(Rotl, NEG3_32, 1)) == Value(-5)
    ensures Printed32(I32Binary(Rotr, 1, 1)) == Value(-2147483648)
  {
  }

  // ------------------------------------------------------------- unary operators

  /** 130 is 0b1000_0010: two one bits, counted from the low end. */
  lemma OneBitsOf130()
    ensures OneBits32(130, 32) == 2
  {
    assert OneBits32(1, 25) == 1;
    assert OneBits32(2, 26) == 1;
    assert OneBits32(4, 27) == 1;
    assert OneBits32(8, 28) == 1;
    assert OneBits32(16, 29) == 1;
    assert OneBits32(32, 30) == 1;
    assert OneBits32(65, 31) == 2;
  }

  lemma I64UnaryOperations()
    ensures I64Unary(Clz, 1) == 63
    ensures I64Unary(Ctz, 2) == 1
    ensures I64Unary(Popcnt, 130) == 2
  {
    assert Low(130) == 130 && High(130) == 0;
    OneBitsOf130();
  }

  lemma I32UnaryOperations()
    ensures I32Unary(Clz, 1) == 31
    ensures I32Unary(Ctz, 2) == 1
    ensures I32Unary(Popcnt, 130) == 2
  {
    OneBitsOf130();
  }

  // ------------------------------------------------------------- comparisons

  /** Signed and unsigned readings of -1 disagree: it is below 2 signed and above 2 unsigned. */
  lemma I64ComparisonOperations()
    ensures I64Compare(Eq, 1, 2) == 0 && I64Compare(Ne, 1, 2) == 1
    ensures I64Compare(LtS, NEG1_64, 2) == 1 && I64Compare(LtU, NEG1_64, 2) == 0 && I64Compare(LtU, 2, 2) == 0
    ensures I64Compare(GtS, NEG1_64, 2) == 0 && I64Compare(GtU, NEG1_64, 2) == 1
    ensures I64Compare(LeS, NEG1_64, 2) == 1 && I64Compare(LeU, NEG1_64, 2) == 0
    ensures I64Compare(GeS, NEG1_64, 2) == 0 && I64Compare(GeU, NEG1_64, 2) == 1
    ensures I64Eqz(NEG1_64) == 0 && I64Eqz(0) == 1
  {
  }

  lemma I32ComparisonOperations()
    ensures I32Compare(Eq, 1, 2) == 0 && I32Compare(Ne, 1, 2) == 1
    ensures I32Compare(LtS, NEG1_32, 2) == 1 && I32Compare(LtU, NEG1_32, 2) == 0 && I32Compare(LtU, 2, 2) == 0
    ensures I32Compare(GtS, NEG1_32, 2) == 0 && I32Compare(GtU, NEG1_32, 2) == 1
    ensures I32Compare(LeS, NEG1_32, 2) == 1 && I32Compare(LeU, NEG1_32, 2) == 0
    ensures I32Compare(GeS, NEG1_32, 2) == 0 && I32Compare(GeU, NEG1_32, 2) == 1
    ensures I32Eqz(NEG1_32) == 0 && I32Eqz(0) == 1
  {
  }
}
