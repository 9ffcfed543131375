/** The FuzzIL operations for JavaScript/WebAssembly interop (WasmOperations.swift).

    Each Swift subclass of `Operation` stores its literal payload in `let` fields and hands
    a fixed arity, attribute set and required context to `Operation.init`. Here the five kinds
    form one closed datatype; every other FuzzIL operation is represented by `OtherOperation`,
    which only carries the signature the mutator and the arity invariant need. */
module WasmOperations {

  type int64 = x: int | -0x8000_0000_0000_0000 <= x < 0x8000_0000_0000_0000
  type uint8 = x: int | 0 <= x < 0x100

  /** A FuzzIL variable: an opaque, increasing number. */
  type Variable = nat

  datatype Attribute = IsPure | IsCall

  datatype Context = JavaScript | OtherContext(name: string)

  /** The arguments an operation passes to `Operation.init`. */
  datatype Signature = Signature(
    numInputs: nat,
    numOutputs: nat,
    numInnerOutputs: nat,
    attributes: set<Attribute>,
    requiredContext: Context)

  datatype Operation =
    | InstantiateWasm(numImports: nat)
    | GetWasmExport(exportName: string)
    | GetWasmMemory(memoryIndex: int64)
    | WriteWasmMemory(offset: int64, bytes: seq<uint8>)
    | GetWasmGlobal(globalName: string)
    | OtherOperation(name: string, signature: Signature)

  /** Swift's `opcode` property: an enum case per operation class, carrying the operation. */
  datatype Opcode =
    | OpInstantiateWasm(op: Operation)
    | OpGetWasmExport(op: Operation)
    | OpGetWasmMemory(op: Operation)
    | OpWriteWasmMemory(op: Operation)
    | OpGetWasmGlobal(op: Operation)
    | OpOther(op: Operation)

  predicate IsWasmOperation(op: Operation) {
    !op.OtherOperation?
  }

  /** The signature each initializer declares. Every Wasm interop operation reads one
      JavaScript value (plus the imports of an instantiation), needs the JavaScript
      context and has no inner outputs; only the memory write has a side effect. */
  function SignatureOf(op: Operation): (s: Signature)
    ensures IsWasmOperation(op) ==>
      && s.numInputs >= 1
      && s.numInnerOutputs == 0
      && s.requiredContext == JavaScript
      && s.numOutputs <= 1
      && (IsPure in s.attributes <==> !op.WriteWasmMemory?)
      && (IsCall in s.attributes <==> op.InstantiateWasm?)
  {
    match op
    case InstantiateWasm(k) => Signature(k + 1, 1, 0, {IsPure, IsCall}, JavaScript)
    case GetWasmExport(_) => Signature(1, 1, 0, {IsPure}, JavaScript)
    case GetWasmMemory(_) => Signature(1, 1, 0, {IsPure}, JavaScript)
    case WriteWasmMemory(_, _) => Signature(1, 0, 0, {}, JavaScript)
    case GetWasmGlobal(_) => Signature(1, 1, 0, {IsPure}, JavaScript)
    case OtherOperation(_, sig) => sig
  }

  function OpcodeOf(op: Operation): (c: Opcode)
    ensures c.op == op
    ensures c.OpOther? <==> !IsWasmOperation(op)
  {
    match op
    case InstantiateWasm(_) => OpInstantiateWasm(op)
    case GetWasmExport(_) => OpGetWasmExport(op)
    case GetWasmMemory(_) => OpGetWasmMemory(op)
    case WriteWasmMemory(_, _) => OpWriteWasmMemory(op)
    case GetWasmGlobal(_) => OpGetWasmGlobal(op)
    case OtherOperation(_, _) => OpOther(op)
  }

  /** One operation bound to its input and output variables. */
  datatype Instruction = Instruction(op: Operation, inputs: seq<Variable>, outputs: seq<Variable>)

  /** The arity invariant: an instruction uses exactly the inputs and outputs its operation declares. */
  predicate WellFormed(instr: Instruction) {
    var s := SignatureOf(instr.op);
    |instr.inputs| == s.numInputs && |instr.outputs| == s.numOutputs + s.numInnerOutputs
  }

  lemma InstantiateWasmSignature(k: nat)
    ensures SignatureOf(InstantiateWasm(k)) == Signature(k + 1, 1, 0, {IsPure, IsCall}, JavaScript)
  {
  }

  lemma GetWasmExportSignature(name: string)
    ensures SignatureOf(GetWasmExport(name)) == Signature(1, 1, 0, {IsPure}, JavaScript)
    ensures GetWasmExport(name).exportName == name
  {
  }

  lemma GetWasmMemorySignature(index: int64)
    ensures SignatureOf(GetWasmMemory(index)) == Signature(1, 1, 0, {IsPure}, JavaScript)
    ensures GetWasmMemory(index).memoryIndex == index
  {
  }

  lemma WriteWasmMemorySignature(offset: int64, bytes: seq<uint8>)
    ensures SignatureOf(WriteWasmMemory(offset, bytes)) == Signature(1, 0, 0, {}, JavaScript)
    ensures WriteWasmMemory(offset, bytes).offset == offset
    ensures WriteWasmMemory(offset, bytes).bytes == bytes
  {
  }

  lemma GetWasmGlobalSignature(name: string)
    ensures SignatureOf(GetWasmGlobal(name)) == Signature(1, 1, 0, {IsPure}, JavaScript)
    ensures GetWasmGlobal(name).globalName == name
  {
  }

  /** Dispatching on the opcode loses nothing: equal opcodes mean equal operations,
      and for the five Wasm kinds the opcode case names the operation's kind. */
  lemma OpcodeInjective(a: Operation, b: Operation)
    ensures OpcodeOf(a) == OpcodeOf(b) <==> a == b
    ensures OpcodeOf(a).OpInstantiateWasm? <==> a.InstantiateWasm?
    ensures OpcodeOf(a).OpGetWasmExport? <==> a.GetWasmExport?
    ensures OpcodeOf(a).OpGetWasmMemory? <==> a.GetWasmMemory?
    ensures OpcodeOf(a).OpWriteWasmMemory? <==> a.WriteWasmMemory?
    ensures OpcodeOf(a).OpGetWasmGlobal? <==> a.GetWasmGlobal?
  {
  }

  /** An instantiation instruction with a module and k imports satisfies the arity invariant. */
  lemma InstantiateWellFormed(wasmModule: Variable, imports: seq<Variable>, out: Variable)
    ensures WellFormed(Instruction(InstantiateWasm(|imports|), [wasmModule] + imports, [out]))
  {
  }
}
