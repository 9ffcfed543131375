/** The instruction mutator for WebAssembly interop operations (WasmMutator.swift).

    The mutator owns a dead-code analyzer that it resets at the start of every program and
    advances once per instruction it is offered. `DeadCodeAnalyzer` itself is not part of this
    model: its state is the sequence of instructions analyzed since the reset, and whether that
    position is dead is an abstract judgement handed to the mutator when it is created.

    The `mutate*` helpers are straight-line: adopt input 0, draw a payload, emit one instruction
    through the program builder. A draw is a parameter constrained by the range the source draws
    from; the variable the builder allocates for the new output is the parameter `out`. */
module WasmMutator {
  import opened WasmOperations

  /** `exportNames` and `globalNames`, the name pools of the two lookups. */
  const EXPORT_NAMES: seq<string> := ["memory", "table", "global", "func", "main", "start", "add", "sub", "mul"]
  const GLOBAL_NAMES: seq<string> := ["g0", "g1", "g2", "global0", "global1", "value", "result"]

  const MAX_IMPORTS: nat := 3
  const MAX_MEMORY_INDEX: nat := 3
  const MAX_OFFSET: nat := 1024
  const MAX_WRITTEN_BYTES: nat := 16

  /** The state of the dead-code analyzer: what it has been fed since it was created. */
  datatype DeadCodeAnalyzer = DeadCodeAnalyzer(analyzed: seq<Instruction>) {
    function Analyze(instr: Instruction): (a: DeadCodeAnalyzer)
      ensures a.analyzed == analyzed + [instr]
    {
      DeadCodeAnalyzer(analyzed + [instr])
    }

    predicate CurrentlyInDeadCode(deadAfter: seq<Instruction> -> bool) {
      deadAfter(analyzed)
    }
  }

  /** The opcodes `canMutate` accepts and `mutate` rewrites. */
  predicate IsMutableOpcode(c: Opcode) {
    c.OpInstantiateWasm? || c.OpGetWasmExport? || c.OpGetWasmMemory? || c.OpWriteWasmMemory? || c.OpGetWasmGlobal?
  }

  /** All random draws one call of `mutate` may consume. */
  datatype Draws = Draws(
    imports: seq<Variable>,   // Int.random(in: 0...3) results of b.randomVariable()
    exportChoice: nat,        // chooseUniform(from: exportNames)
    memoryIndex: int,         // Int64.random(in: 0...3)
    offset: int,              // Int64.random(in: 0...1024)
    bytes: seq<uint8>,        // Int.random(in: 1...16) values of UInt8.random(in: 0...255)
    globalChoice: nat)        // chooseUniform(from: globalNames)

  predicate DrawsInRange(d: Draws) {
    && |d.imports| <= MAX_IMPORTS
    && d.exportChoice < |EXPORT_NAMES|
    && 0 <= d.memoryIndex <= MAX_MEMORY_INDEX
    && 0 <= d.offset <= MAX_OFFSET
    && 1 <= |d.bytes| <= MAX_WRITTEN_BYTES
    && d.globalChoice < |GLOBAL_NAMES|
  }

  function MutateInstantiateWasm(instr: Instruction, imports: seq<Variable>, out: Variable): (r: Instruction)
    requires |instr.inputs| >= 1
    requires |imports| <= MAX_IMPORTS
    ensures r.op.InstantiateWasm? && r.op.numImports == |imports|
    ensures 1 <= |r.inputs| <= MAX_IMPORTS + 1
    ensures r.inputs[0] == instr.inputs[0] && r.inputs[1..] == imports
    ensures WellFormed(r) && r.outputs == [out]
  {
    Instruction(InstantiateWasm(|imports|), [instr.inputs[0]] + imports, [out])
  }

  function MutateGetWasmExport(instr: Instruction, choice: nat, out: Variable): (r: Instruction)
    requires |instr.inputs| >= 1
    requires choice < |EXPORT_NAMES|
    ensures r.op.GetWasmExport? && r.op.exportName in EXPORT_NAMES
    ensures r.inputs == [instr.inputs[0]]
    ensures WellFormed(r) && r.outputs == [out]
  {
    Instruction(GetWasmExport(EXPORT_NAMES[choice]), [instr.inputs[0]], [out])
  }

  function MutateGetWasmMemory(instr: Instruction, index: int, out: Variable): (r: Instruction)
    requires |instr.inputs| >= 1
    requires 0 <= index <= MAX_MEMORY_INDEX
    ensures r.op.GetWasmMemory? && 0 <= r.op.memoryIndex <= MAX_MEMORY_INDEX
    ensures r.inputs == [instr.inputs[0]]
    ensures WellFormed(r) && r.outputs == [out]
  {
    Instruction(GetWasmMemory(index), [instr.inputs[0]], [out])
  }

  function MutateWriteWasmMemory(instr: Instruction, offset: int, bytes: seq<uint8>): (r: Instruction)
    requires |instr.inputs| >= 1
    requires 0 <= offset <= MAX_OFFSET
    requires 1 <= |bytes| <= MAX_WRITTEN_BYTES
    ensures r.op.WriteWasmMemory? && 0 <= r.op.offset <= MAX_OFFSET
    ensures 1 <= |r.op.bytes| <= MAX_WRITTEN_BYTES && r.op.bytes == bytes
    ensures r.inputs == [instr.inputs[0]]
    ensures WellFormed(r) && r.outputs == []
  {
    Instruction(WriteWasmMemory(offset, bytes), [instr.inputs[0]], [])
  }

  function MutateGetWasmGlobal(instr: Instruction, choice: nat, out: Variable): (r: Instruction)
    requires |instr.inputs| >= 1
    requires choice < |GLOBAL_NAMES|
    ensures r.op.GetWasmGlobal? && r.op.globalName in GLOBAL_NAMES
    ensures r.inputs == [instr.inputs[0]]
    ensures WellFormed(r) && r.outputs == [out]
  {
    Instruction(GetWasmGlobal(GLOBAL_NAMES[choice]), [instr.inputs[0]], [out])
  }

  /** `mutate`: a Wasm instruction is re-emitted with fresh payload and the same kind and
      input 0; any other instruction is adopted unchanged. */
  function Mutate(instr: Instruction, d: Draws, out: Variable): (r: Instruction)
    requires WellFormed(instr)
    requires DrawsInRange(d)
    ensures WellFormed(r)
    ensures IsMutableOpcode(OpcodeOf(instr.op)) ==>
      && OpcodeOf(r.op).OpOther? == false
      && r.op.InstantiateWasm? == instr.op.InstantiateWasm?
      && r.op.GetWasmExport? == instr.op.GetWasmExport?
      && r.op.GetWasmMemory? == instr.op.GetWasmMemory?
      && r.op.WriteWasmMemory? == instr.op.WriteWasmMemory?
      && r.op.GetWasmGlobal? == instr.op.GetWasmGlobal?
      && r.inputs[0] == instr.inputs[0]
    ensures !IsMutableOpcode(OpcodeOf(instr.op)) ==> r == instr
  {
    match OpcodeOf(instr.op)
    case OpInstantiateWasm(_) => MutateInstantiateWasm(instr, d.imports, out)
    case OpGetWasmExport(_) => MutateGetWasmExport(instr, d.exportChoice, out)
    case OpGetWasmMemory(_) => MutateGetWasmMemory(instr, d.memoryIndex, out)
    case OpWriteWasmMemory(_) => MutateWriteWasmMemory(instr, d.offset, d.bytes)
    case OpGetWasmGlobal(_) => MutateGetWasmGlobal(instr, d.globalChoice, out)
    case OpOther(_) => instr
  }

  class WasmMutator {
    var deadCodeAnalyzer: DeadCodeAnalyzer
    /** Whether the analyzer reports dead code after the given instructions. */
    const deadAfter: seq<Instruction> -> bool

    constructor (deadAfter: seq<Instruction> -> bool)
      ensures deadCodeAnalyzer.analyzed == [] && this.deadAfter == deadAfter
    {
      deadCodeAnalyzer := DeadCodeAnalyzer([]);
      this.deadAfter := deadAfter;
    }

    /** `beginMutation(of:)`: a fresh analyzer, so no state carries over from the last program. */
    method BeginMutation(program: seq<Instruction>)
      modifies this
      ensures deadCodeAnalyzer.analyzed == []
    {
      deadCodeAnalyzer := DeadCodeAnalyzer([]);
    }

    /** `canMutate`: advance the analyzer by this one instruction, then accept it exactly when
        it is live and one of the five Wasm interop opcodes. */
    method CanMutate(instr: Instruction) returns (ok: bool)
      modifies this
      ensures deadCodeAnalyzer.analyzed == old(deadCodeAnalyzer.analyzed) + [instr]
      ensures ok <==> !deadAfter(deadCodeAnalyzer.analyzed) && IsMutableOpcode(OpcodeOf(instr.op))
    {
      deadCodeAnalyzer := deadCodeAnalyzer.Analyze(instr);
      if deadCodeAnalyzer.CurrentlyInDeadCode(deadAfter) {
        return false;
      }
      match OpcodeOf(instr.op)
      case OpInstantiateWasm(_) => ok := true;
      case OpGetWasmExport(_) => ok := true;
      case OpGetWasmMemory(_) => ok := true;
      case OpWriteWasmMemory(_) => ok := true;
      case OpGetWasmGlobal(_) => ok := true;
      case OpOther(_) => ok := false;
    }
  }

  /** Whatever `canMutate` accepts is rewritten into an operation of the same kind keeping
      input 0, and the rewrite satisfies the arity invariant; a rejected non-Wasm instruction
      would be adopted by `mutate` unchanged. */
  lemma AcceptedIsRewritten(instr: Instruction, d: Draws, out: Variable)
    requires WellFormed(instr) && DrawsInRange(d)
    requires IsMutableOpcode(OpcodeOf(instr.op))
    ensures var r := Mutate(instr, d, out);
      WellFormed(r) && r.inputs[0] == instr.inputs[0] && IsWasmOperation(r.op)
  {
  }

  lemma NamePools()
    ensures |EXPORT_NAMES| == 9 && |GLOBAL_NAMES| == 7
  {
  }
}
