/** Issue cycles of executed instructions under two schedules, out of order and in order: what one
    instruction waits for, and what a run of them amounts to. */
module IlpSchedule {
  import opened Basics
  import opened IssueWindow

  /** Operands. The results of phis and calls are told apart from those of other instructions. */
  datatype Value =
    | Constant(id: nat)
    | Label(id: nat)
    | Phi(id: nat)
    | CallResult(id: nat)
    | Result(id: nat)
    | Argument(f: nat, j: nat)

  /** An incoming value of a phi, with the block it comes from. */
  datatype Incoming = Incoming(block: nat, v: Value)

  /** A called function and the number of its parameters. */
  datatype Callee = Callee(f: nat, params: nat)

  /** An executed instruction, in block `parent`. The callee of a call through a pointer may be
      unknown. `Other` is control for terminators. */
  datatype Instr =
    | PhiNode(id: nat, incoming: seq<Incoming>, parent: nat)
    | Call(id: nat, callee: Option<Callee>, args: seq<Value>, parent: nat)
    | Other(id: nat, operands: seq<Value>, control: bool, parent: nat)
    | Load(id: nat, pointer: Value, address: nat, parent: nat)
    | Store(id: nat, stored: Value, pointer: Value, address: nat, parent: nat)

  /** An instruction is visited, or a return hands its value to the call it answers. */
  datatype Event = Visit(i: Instr) | Return(result: Value, call: Value)

  /** A cycle in the out-of-order schedule and one in the in-order schedule. */
  datatype Cycles = Cycles(value1: nat, value2: nat)

  datatype MemoryDep = MemoryDep(lastStore: Cycles, lastLoad: Cycles)

  datatype Tables = Tables(operands: map<Value, Cycles>, memory: map<nat, MemoryDep>)

  /** Window size, and whether control instructions are serialised or ignored. */
  datatype Config = Config(window: nat, serialControl: bool, ignoreControl: bool)

  datatype Issued = Issued(instr: Instr, cycles: Cycles)

  /** `issued` are the scheduled instructions in program order. */
  datatype State = State(tables: Tables, issued: seq<Issued>, minControl: nat)

  const NEVER := Cycles(0, 0)

  function Self(i: Instr): Value {
    match i
    case PhiNode(id, _, _) => Phi(id)
    case Call(id, _, _, _) => CallResult(id)
    case _ => Result(i.id)
  }

  predicate ConstantLike(v: Value) {
    v.Constant? || v.Label? || v.Phi?
  }

  predicate IsControl(i: Instr) {
    i.Call? || (i.Other? && i.control)
  }

  predicate IsIgnored(cfg: Config, i: Instr) {
    i.PhiNode? || (cfg.ignoreControl && IsControl(i))
  }

  // ----- What an instruction waits for -----------------------------------------------------

  /** The last use of an operand, the stores to an address, the loads from it. */
  datatype Source = Operand(v: Value) | Stored(address: nat) | Loaded(address: nat)

  function Lookup(operands: map<Value, Cycles>, v: Value): Cycles {
    if v in operands then operands[v] else NEVER
  }

  function Usage(t: Tables, s: Source): Cycles {
    match s
    case Operand(v) => Lookup(t.operands, v)
    case Stored(a) => if a in t.memory then t.memory[a].lastStore else NEVER
    case Loaded(a) => if a in t.memory then t.memory[a].lastLoad else NEVER
  }

  datatype Need = Need(source: Source, delay: nat)

  /** Using `v`, whose cycle is kept under `at`: one cycle later, behind a phi in the same cycle. */
  function NeedsOf(v: Value, at: Value): seq<Need> {
    if !ConstantLike(v) then [Need(Operand(at), 1)]
    else if v.Phi? then [Need(Operand(at), 0)]
    else []
  }

  function OperandNeeds(vs: seq<Value>, n: nat): seq<Need>
    requires n <= |vs|
  {
    if n == 0 then [] else OperandNeeds(vs, n - 1) + NeedsOf(vs[n - 1], vs[n - 1])
  }

  /** The value the `i`-th argument has the cycle of: the parameters take over the cycles of the
      arguments one by one, and an argument may itself be a parameter that has already done so. */
  function Passed(callee: Callee, args: seq<Value>, i: nat): Value
    requires i < |args|
    decreases i
  {
    var v := args[i];
    if v.Argument? && v.f == callee.f && v.j < i && v.j < callee.params then Passed(callee, args, v.j) else v
  }

  function ArgumentNeeds(callee: Callee, args: seq<Value>, n: nat): seq<Need>
    requires n <= |args|
  {
    if n == 0 then [] else ArgumentNeeds(callee, args, n - 1) + NeedsOf(args[n - 1], Passed(callee, args, n - 1))
  }

  /** Loads follow the stores to their address, stores the stores and the loads. */
  function Needs(i: Instr): seq<Need> {
    match i
    case PhiNode(_, _, _) => []
    case Call(_, None, _, _) => []
    case Call(_, Some(callee), args, _) => ArgumentNeeds(callee, args, |args|)
    case Other(_, operands, _, _) => OperandNeeds(operands, |operands|)
    case Load(_, pointer, a, _) => [Need(Operand(pointer), 1), Need(Stored(a), 1)]
    case Store(_, v, pointer, a, _) =>
      [Need(Operand(v), 1), Need(Operand(pointer), 1), Need(Stored(a), 1), Need(Loaded(a), 1)]
  }

  /** Using `v`: not at all for a constant or a label, in the same cycle for a phi. */
  predicate IsUse(v: Value, at: Value, need: Need) {
    match v
    case Constant(_) => false
    case Label(_) => false
    case Phi(_) => need == Need(Operand(at), 0)
    case CallResult(_) => need == Need(Operand(at), 1)
    case Result(_) => need == Need(Operand(at), 1)
    case Argument(_, _) => need == Need(Operand(at), 1)
  }

  lemma {:induction false} OperandNeedsAre(vs: seq<Value>, n: nat, need: Need)
    requires n <= |vs|
    ensures need in OperandNeeds(vs, n) <==> exists k :: 0 <= k < n && IsUse(vs[k], vs[k], need)
    decreases n
  {
    if n > 0 { OperandNeedsAre(vs, n - 1, need); }
  }

  lemma {:induction false} ArgumentNeedsAre(callee: Callee, args: seq<Value>, n: nat, need: Need)
    requires n <= |args|
    ensures need in ArgumentNeeds(callee, args, n) <==> exists k :: 0 <= k < n && IsUse(args[k], Passed(callee, args, k), need)
    decreases n
  {
    if n > 0 { ArgumentNeedsAre(callee, args, n - 1, need); }
  }

  /** An instruction waits for exactly its operands; a load also for the stores to its address, but not
      for other loads, a store for both. */
  lemma NeedsAre(i: Instr, need: Need)
    ensures need in Needs(i) <==>
      match i
      case PhiNode(_, _, _) => false
      case Call(_, callee, args, _) =>
        callee.Some? && exists k :: 0 <= k < |args| && IsUse(args[k], Passed(callee.value, args, k), need)
      case Other(_, operands, _, _) => exists k :: 0 <= k < |operands| && IsUse(operands[k], operands[k], need)
      case Load(_, pointer, a, _) => need.delay == 1 && need.source in {Operand(pointer), Stored(a)}
      case Store(_, v, pointer, a, _) => need.delay == 1 && need.source in {Operand(v), Operand(pointer), Stored(a), Loaded(a)}
  {
    match i
    case PhiNode(_, _, _) =>
    case Call(_, callee, args, _) => if callee.Some? { ArgumentNeedsAre(callee.value, args, |args|, need); }
    case Other(_, operands, _, _) => OperandNeedsAre(operands, |operands|, need);
    case Load(_, _, _, _) =>
    case Store(_, _, _, _, _) =>
  }

  function MaxCycles(a: Cycles, b: Cycles): Cycles {
    Cycles(Max(a.value1, b.value1), Max(a.value2, b.value2))
  }

  function Later(c: Cycles, delay: nat): Cycles {
    Cycles(c.value1 + delay, c.value2 + delay)
  }

  /** The first cycles from `floor` on at which all needs are met. */
  function Met(t: Tables, needs: seq<Need>, floor: Cycles): Cycles {
    if needs == [] then floor
    else
      var last := needs[|needs| - 1];
      MaxCycles(Met(t, needs[..|needs| - 1], floor), Later(Usage(t, last.source), last.delay))
  }

  // ----- Runs ------------------------------------------------------------------------------

  function Out(issued: seq<Issued>): seq<nat> {
    seq(|issued|, k requires 0 <= k < |issued| => issued[k].cycles.value1)
  }

  function InOrder(issued: seq<Issued>): seq<nat> {
    seq(|issued|, k requires 0 <= k < |issued| => issued[k].cycles.value2)
  }

  function Floor(cfg: Config, issued: seq<Issued>): Cycles {
    Cycles(WindowCycle(Out(issued), cfg.window), WindowCycle(InOrder(issued), cfg.window))
  }

  /** The block of the last scheduled instruction. */
  function LastBlock(issued: seq<Instr>): Option<nat> {
    if issued == [] then None else Some(issued[|issued| - 1].parent)
  }

  function Instrs(issued: seq<Issued>): seq<Instr> {
    seq(|issued|, k requires 0 <= k < |issued| => issued[k].instr)
  }

  /** The value a phi takes when control comes from block `from`. */
  function Chosen(incoming: seq<Incoming>, from: Option<nat>): Option<Value> {
    if incoming == [] then None
    else if Some(incoming[0].block) == from then Some(incoming[0].v)
    else Chosen(incoming[1..], from)
  }

  predicate ComesFrom(incoming: seq<Incoming>, from: Option<nat>, k: nat)
    requires k < |incoming|
  {
    Some(incoming[k].block) == from
  }

  /** It is the first incoming value from that block, if there is one. */
  lemma {:induction false} ChosenIs(incoming: seq<Incoming>, from: Option<nat>)
    ensures match Chosen(incoming, from)
      case None => forall k :: 0 <= k < |incoming| ==> !ComesFrom(incoming, from, k)
      case Some(v) => exists k :: 0 <= k < |incoming| && ComesFrom(incoming, from, k) && incoming[k].v == v
                                  && forall j :: 0 <= j < k ==> !ComesFrom(incoming, from, j)
    decreases |incoming|
  {
    if incoming != [] && Some(incoming[0].block) != from {
      var rest := incoming[1..];
      ChosenIs(rest, from);
      assert forall k :: 0 <= k < |rest| ==> (ComesFrom(rest, from, k) <==> ComesFrom(incoming, from, k + 1));
      if Chosen(rest, from).Some? {
        var k :| 0 <= k < |rest| && ComesFrom(rest, from, k) && rest[k].v == Chosen(rest, from).value
                 && forall j :: 0 <= j < k ==> !ComesFrom(rest, from, j);
        assert ComesFrom(incoming, from, k + 1);
        forall j | 0 <= j < k + 1 ensures !ComesFrom(incoming, from, j) {
          if j > 0 { assert !ComesFrom(rest, from, j - 1); }
        }
      } else {
        forall k | 0 <= k < |incoming| ensures !ComesFrom(incoming, from, k) {
          if k > 0 { assert !ComesFrom(rest, from, k - 1); }
        }
      }
    }
  }

  function PhiDelay(v: Value): nat {
    if ConstantLike(v) || v.CallResult? then 0 else 1
  }

  function Raised(c: Cycles, issued: seq<Issued>): Cycles {
    c.(value2 := Max(c.value2, MaxOf(InOrder(issued))))
  }

  /** The cycles before the in-order clamp of instructions without operands. */
  function Ready(cfg: Config, st: State, i: Instr): Cycles {
    var c := Met(st.tables, Needs(i), Floor(cfg, st.issued));
    if Needs(i) == [] then c else Raised(c, st.issued)
  }

  /** Serialised control instructions issue one after the other. */
  function Serialised(cfg: Config, i: Instr, c: Cycles, minControl: nat): Cycles {
    if cfg.serialControl && IsControl(i) then c.(value1 := Max(c.value1, minControl)) else c
  }

  function Issue(cfg: Config, st: State, i: Instr): Cycles {
    Serialised(cfg, i, Raised(Ready(cfg, st, i), st.issued), st.minControl)
  }

  /** Constants have no cycle. */
  function Insert(operands: map<Value, Cycles>, v: Value, c: Cycles): map<Value, Cycles> {
    if v.Constant? then operands else operands[v := c]
  }

  predicate IsBound(callee: Callee, n: nat, v: Value) {
    v.Argument? && v.f == callee.f && v.j < n && v.j < callee.params
  }

  /** The first `n` arguments have been passed to the parameters there are. */
  function Bound(operands: map<Value, Cycles>, callee: Callee, args: seq<Value>, n: nat): map<Value, Cycles>
    requires n <= |args|
  {
    if n == 0 then operands
    else
      var bound := Bound(operands, callee, args, n - 1);
      if n - 1 < callee.params then bound[Argument(callee.f, n - 1) := Lookup(operands, Passed(callee, args, n - 1))] else bound
  }

  /** A parameter has the cycle of what was passed to it, everything else keeps its own. */
  lemma {:induction false} BoundLookup(operands: map<Value, Cycles>, callee: Callee, args: seq<Value>, n: nat, v: Value)
    requires n <= |args|
    ensures Lookup(Bound(operands, callee, args, n), v)
            == Lookup(operands, if IsBound(callee, n, v) then Passed(callee, args, v.j) else v)
    decreases n
  {
    if n > 0 {
      BoundLookup(operands, callee, args, n - 1, v);
    }
  }

  /** None of the first `n` arguments is a parameter that an earlier argument has changed. */
  predicate KeepsOwn(callee: Callee, args: seq<Value>, i: nat)
    requires i < |args|
  {
    IsBound(callee, i, args[i]) ==> args[args[i].j] == args[i]
  }

  predicate KeepOwn(callee: Callee, args: seq<Value>, n: nat)
    requires n <= |args|
  {
    forall i :: 0 <= i < n ==> KeepsOwn(callee, args, i)
  }

  /** An argument that keeps its own is passed as it is, whatever happens to the others. */
  lemma KeptIsPassed(callee: Callee, args: seq<Value>, i: nat)
    requires i < |args| && KeepsOwn(callee, args, i)
    ensures Passed(callee, args, i) == args[i]
  {
    if IsBound(callee, i, args[i]) {
      assert Passed(callee, args, i) == Passed(callee, args, args[i].j);
    }
  }

  lemma {:induction false} PassedIsOwn(callee: Callee, args: seq<Value>, n: nat, i: nat)
    requires i < n <= |args| && KeepOwn(callee, args, n)
    ensures Passed(callee, args, i) == args[i]
    decreases i
  {
    assert KeepsOwn(callee, args, i);
    if IsBound(callee, i, args[i]) {
      PassedIsOwn(callee, args, n, args[i].j);
    }
  }

  /** The first argument that does not keep its own is passed something else. */
  lemma {:induction false} FirstIsNotOwn(callee: Callee, args: seq<Value>, n: nat) returns (i: nat)
    requires n <= |args| && !KeepOwn(callee, args, n)
    ensures i < n && Passed(callee, args, i) != args[i]
    decreases n
  {
    if !KeepOwn(callee, args, n - 1) {
      i := FirstIsNotOwn(callee, args, n - 1);
    } else {
      i := n - 1;
      assert !KeepsOwn(callee, args, i);
      PassedIsOwn(callee, args, n - 1, args[i].j);
    }
  }

  ghost predicate PassesOwn(operands: map<Value, Cycles>, callee: Callee, args: seq<Value>, i: nat)
    requires i < |args|
  {
    Lookup(operands, Passed(callee, args, i)) == Lookup(operands, args[i])
  }

  /** Whatever the tables hold, the first `n` arguments have their own cycles exactly if they keep
      them. */
  lemma PassesOwnIff(callee: Callee, args: seq<Value>, n: nat)
    requires n <= |args|
    ensures (forall operands, i :: 0 <= i < n ==> PassesOwn(operands, callee, args, i)) <==> KeepOwn(callee, args, n)
  {
    if KeepOwn(callee, args, n) {
      forall operands, i | 0 <= i < n ensures PassesOwn(operands, callee, args, i) {
        PassedIsOwn(callee, args, n, i);
      }
    } else {
      var i := FirstIsNotOwn(callee, args, n);
      assert !PassesOwn(map[args[i] := Cycles(1, 1)], callee, args, i);
    }
  }

  /** The parameter that stands for argument `i` has that argument's cycle before the call. */
  ghost predicate BindsOwn(operands: map<Value, Cycles>, callee: Callee, args: seq<Value>, i: nat)
    requires i < |args|
  {
    Lookup(Bound(operands, callee, args, |args|), Argument(callee.f, i)) == Lookup(operands, args[i])
  }

  function Parameters(callee: Callee, args: seq<Value>): nat {
    if callee.params < |args| then callee.params else |args|
  }

  /** Every parameter takes over its own argument's cycle, whatever the tables hold, exactly if no
      argument is a parameter of the same function that has by then been given another value. */
  lemma BindsOwnIff(callee: Callee, args: seq<Value>)
    ensures (forall operands, i :: 0 <= i < Parameters(callee, args) ==> BindsOwn(operands, callee, args, i))
       <==> KeepOwn(callee, args, Parameters(callee, args))
  {
    var n := Parameters(callee, args);
    forall operands, i | 0 <= i < n ensures BindsOwn(operands, callee, args, i) <==> PassesOwn(operands, callee, args, i) {
      BoundLookup(operands, callee, args, |args|, Argument(callee.f, i));
    }
    PassesOwnIff(callee, args, n);
    if !KeepOwn(callee, args, n) {
      var operands, i :| 0 <= i < n && !PassesOwn(operands, callee, args, i);
      assert !BindsOwn(operands, callee, args, i);
    }
  }

  /** A call that swaps two parameters of the calling function: both get the cycle of the second. */
  lemma SwapIsLost(operands: map<Value, Cycles>, f: nat, params: nat)
    requires params >= 2
    ensures var callee, args := Callee(f, params), [Argument(f, 1), Argument(f, 0)];
      var bound := Bound(operands, callee, args, 2);
      && !KeepOwn(callee, args, 2)
      && Lookup(bound, Argument(f, 0)) == Lookup(bound, Argument(f, 1)) == Lookup(operands, Argument(f, 1))
  {
    var callee, args := Callee(f, params), [Argument(f, 1), Argument(f, 0)];
    assert !KeepsOwn(callee, args, 1);
    BoundLookup(operands, callee, args, 2, Argument(f, 0));
    BoundLookup(operands, callee, args, 2, Argument(f, 1));
  }

  function Loading(t: Tables, a: nat, c: Cycles): MemoryDep {
    MemoryDep(Usage(t, Stored(a)), MaxCycles(Usage(t, Loaded(a)), c))
  }

  function Storing(t: Tables, a: nat, c: Cycles): MemoryDep {
    MemoryDep(MaxCycles(Usage(t, Stored(a)), c), Usage(t, Loaded(a)))
  }

  function RecordedCall(t: Tables, i: Instr, c: Cycles): Tables
    requires i.Call?
  {
    match i.callee
    case None => t
    case Some(callee) => t.(operands := Bound(t.operands, callee, i.args, |i.args|)[Self(i) := c])
  }

  function RecordedLoad(t: Tables, i: Instr, c: Cycles): Tables
    requires i.Load?
  {
    Tables(t.operands[Self(i) := c], t.memory[i.address := Loading(t, i.address, c)])
  }

  /** A store also counts as the last use of its pointer. */
  function RecordedStore(t: Tables, i: Instr, c: Cycles): Tables
    requires i.Store?
  {
    Tables(Insert(t.operands[Self(i) := c], i.pointer, c), t.memory[i.address := Storing(t, i.address, c)])
  }

  /** What an instruction that is ready at `c` leaves in the tables. */
  function Recorded(t: Tables, i: Instr, c: Cycles): Tables {
    match i
    case PhiNode(_, _, _) => t
    case Call(_, _, _, _) => RecordedCall(t, i, c)
    case Other(_, _, _, _) => t.(operands := t.operands[Self(i) := c])
    case Load(_, _, _, _) => RecordedLoad(t, i, c)
    case Store(_, _, _, _, _) => RecordedStore(t, i, c)
  }

  function AfterPhi(st: State, i: Instr): State
    requires i.PhiNode?
  {
    match Chosen(i.incoming, LastBlock(Instrs(st.issued)))
    case None => st
    case Some(v) =>
      var c := Later(Lookup(st.tables.operands, v), PhiDelay(v));
      var c' := if PhiDelay(v) == 0 then c else Raised(c, st.issued);
      st.(tables := st.tables.(operands := st.tables.operands[Self(i) := c']))
  }

  function AfterVisit(cfg: Config, st: State, i: Instr): State {
    if i.PhiNode? then AfterPhi(st, i)
    else
      var tables := Recorded(st.tables, i, Ready(cfg, st, i));
      if IsIgnored(cfg, i) then st.(tables := tables)
      else
        Scheduling(cfg, st, tables, i, Issue(cfg, st, i))
  }

  /** Instruction `i` issues at `c`. */
  function Scheduling(cfg: Config, st: State, t: Tables, i: Instr, c: Cycles): State {
    State(t.(operands := t.operands[Self(i) := c]), st.issued + [Issued(i, c)],
          if cfg.serialControl && IsControl(i) then c.value1 + 1 else st.minControl)
  }

  function Step(cfg: Config, st: State, e: Event): State {
    match e
    case Visit(i) => AfterVisit(cfg, st, i)
    case Return(result, call) =>
      var t := st.tables.operands;
      st.(tables := st.tables.(operands := Insert(t, call, MaxCycles(Lookup(t, result), Lookup(t, call)))))
  }

  function Run(cfg: Config, trace: seq<Event>): State {
    if trace == [] then State(Tables(map[], map[]), [], 0)
    else Step(cfg, Run(cfg, trace[..|trace| - 1]), trace[|trace| - 1])
  }
}
