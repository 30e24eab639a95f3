/** The programs under analysis: functions of basic blocks of instructions. */
module Program {

  datatype Callee = Internal(f: nat) | External | Llvm

  /** `Plain` is any instruction the hooks and the replay treat alike; `Branch` any terminator that
      stays inside its function. Calls are direct, and `External` ones are not MPI calls. */
  datatype Instr = Phi | Load | Store | Call(callee: Callee) | Branch | Ret | Plain

  type Block = seq<Instr>

  /** A function without blocks is a declaration. */
  type Function = seq<Block>

  /** A module; its `main` is one of its functions. */
  datatype Module = Module(functions: seq<Function>, main: nat)

  /** The `i`-th instruction of a block, or the end of the block. */
  datatype Pos = Pos(f: nat, bb: nat, i: nat)

  predicate InModule(m: Module, p: Pos) {
    p.f < |m.functions| && p.bb < |m.functions[p.f]|
  }

  function BlockAt(m: Module, p: Pos): Block
    requires InModule(m, p)
  {
    m.functions[p.f][p.bb]
  }

  predicate IsTerminator(x: Instr) {
    x.Branch? || x.Ret?
  }

  predicate IsMemory(x: Instr) {
    x.Load? || x.Store?
  }

  /** Blocks end in their only terminator, internal calls go to defined functions, none to `main`. */
  ghost predicate WellFormedBlock(m: Module, b: Block) {
    && b != []
    && (forall i :: 0 <= i < |b| ==> (IsTerminator(b[i]) <==> i == |b| - 1))
    && (forall i :: 0 <= i < |b| && b[i].Call? && b[i].callee.Internal? ==>
          b[i].callee.f < |m.functions| && m.functions[b[i].callee.f] != [] && b[i].callee.f != m.main)
  }

  ghost predicate WellFormed(m: Module) {
    && m.main < |m.functions| && m.functions[m.main] != []
    && forall f, bb :: 0 <= f < |m.functions| && 0 <= bb < |m.functions[f]| ==> WellFormedBlock(m, m.functions[f][bb])
  }
}
