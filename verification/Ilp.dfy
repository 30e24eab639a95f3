/** The scheduler itself: it keeps the last use of every operand and address and the two windows as
    lists, and follows the specification run. */
module Ilp {
  import opened Basics
  import opened IssueWindow
  import opened IlpSchedule
  import opened IlpRuns

  /** The cycles with `needs` met, the in-order one raised to `latest` as soon as there is a need. */
  function Clamped(t: Tables, needs: seq<Need>, floor: Cycles, latest: nat): Cycles {
    var c := Met(t, needs, floor);
    if needs == [] then c else c.(value2 := Max(c.value2, latest))
  }

  lemma ClampedSnoc(t: Tables, needs: seq<Need>, need: Need, floor: Cycles, latest: nat)
    ensures var c := MaxCycles(Clamped(t, needs, floor, latest), Later(Usage(t, need.source), need.delay));
      Clamped(t, needs + [need], floor, latest) == c.(value2 := Max(c.value2, latest))
  {
    assert (needs + [need])[..|needs|] == needs;
  }

  lemma ClampedNone(t: Tables, needs: seq<Need>, floor: Cycles, latest: nat)
    ensures Clamped(t, needs + [], floor, latest) == Clamped(t, needs, floor, latest)
  {
    assert needs + [] == needs;
  }

  /** The effect of one use on the cycles of an instruction. */
  function Used(v: Value, usage: Cycles, c: Cycles, latest: nat): Cycles {
    var r := if !ConstantLike(v) then MaxCycles(c, Later(usage, 1)) else if v.Phi? then MaxCycles(c, usage) else c;
    if !ConstantLike(v) || v.Phi? then r.(value2 := Max(r.value2, latest)) else r
  }

  lemma UseStep(t: Tables, needs: seq<Need>, v: Value, at: Value, floor: Cycles, latest: nat)
    ensures Clamped(t, needs + NeedsOf(v, at), floor, latest)
            == Used(v, Lookup(t.operands, at), Clamped(t, needs, floor, latest), latest)
  {
    if !ConstantLike(v) {
      ClampedSnoc(t, needs, Need(Operand(at), 1), floor, latest);
    } else if v.Phi? {
      ClampedSnoc(t, needs, Need(Operand(at), 0), floor, latest);
    } else {
      ClampedNone(t, needs, floor, latest);
    }
  }

  function OperandsUsed(operands: map<Value, Cycles>, vs: seq<Value>, n: nat, c: Cycles, latest: nat): Cycles
    requires n <= |vs|
  {
    if n == 0 then c
    else Used(vs[n - 1], Lookup(operands, vs[n - 1]), OperandsUsed(operands, vs, n - 1, c, latest), latest)
  }

  lemma {:induction false} OperandsUsedIsClamped(t: Tables, vs: seq<Value>, n: nat, c: Cycles, latest: nat)
    requires n <= |vs|
    ensures OperandsUsed(t.operands, vs, n, c, latest) == Clamped(t, OperandNeeds(vs, n), c, latest)
    decreases n
  {
    if n > 0 {
      OperandsUsedIsClamped(t, vs, n - 1, c, latest);
      UseStep(t, OperandNeeds(vs, n - 1), vs[n - 1], vs[n - 1], c, latest);
    }
  }

  function ArgumentsUsed(operands: map<Value, Cycles>, callee: Callee, args: seq<Value>, n: nat, c: Cycles, latest: nat): Cycles
    requires n <= |args|
  {
    if n == 0 then c
    else Used(args[n - 1], Lookup(operands, Passed(callee, args, n - 1)),
              ArgumentsUsed(operands, callee, args, n - 1, c, latest), latest)
  }

  lemma {:induction false} ArgumentsUsedIsClamped(t: Tables, callee: Callee, args: seq<Value>, n: nat, c: Cycles, latest: nat)
    requires n <= |args|
    ensures ArgumentsUsed(t.operands, callee, args, n, c, latest) == Clamped(t, ArgumentNeeds(callee, args, n), c, latest)
    decreases n
  {
    if n > 0 {
      ArgumentsUsedIsClamped(t, callee, args, n - 1, c, latest);
      UseStep(t, ArgumentNeeds(callee, args, n - 1), args[n - 1], Passed(callee, args, n - 1), c, latest);
    }
  }

  class Scheduler {
    const cfg: Config
    var scheduler: seq<nat>
    var schedulerInOrder: seq<nat>
    var windowCycle: nat
    var windowCycleInOrder: nat
    var minIssueCycleForCtrl: nat
    var maxIssueCycle: nat
    var maxIssueCycleInOrder: nat
    var prevBlock: Option<nat>
    var lastUsageOperands: map<Value, Cycles>
    var lastUsageMemory: map<nat, MemoryDep>
    /** What has been visited so far. */
    ghost var trace: seq<Event>

    ghost function CurrentTables(): Tables
      reads this
    {
      Tables(lastUsageOperands, lastUsageMemory)
    }

    /** A window list holds the issue cycles not yet released. */
    ghost predicate WindowOk(list: seq<nat>, cycle: nat, issued: seq<nat>) {
      if cfg.window == 0 then cycle == 0
      else list == AtLeast(issued, cycle) && |list| < cfg.window && cycle == WindowCycle(issued, cfg.window)
    }

    ghost predicate CountersMatch(st: State)
      reads this
    {
      && maxIssueCycle == MaxOf(Out(st.issued))
      && maxIssueCycleInOrder == MaxOf(InOrder(st.issued))
      && minIssueCycleForCtrl == st.minControl
      && prevBlock == LastBlock(Instrs(st.issued))
    }

    ghost predicate WindowsMatch(issued: seq<Issued>)
      reads this
    {
      WindowOk(scheduler, windowCycle, Out(issued)) && WindowOk(schedulerInOrder, windowCycleInOrder, InOrder(issued))
    }

    /** The fields say what the state of the specification says. */
    ghost predicate Matches(st: State)
      reads this
    {
      CountersMatch(st) && CurrentTables() == st.tables && WindowsMatch(st.issued)
    }

    ghost predicate Valid()
      reads this
    {
      Matches(Run(cfg, trace))
    }

    constructor (cfg: Config)
      ensures Valid() && this.cfg == cfg && trace == []
    {
      this.cfg := cfg;
      scheduler, schedulerInOrder, windowCycle, windowCycleInOrder := [], [], 0, 0;
      minIssueCycleForCtrl, maxIssueCycle, maxIssueCycleInOrder, prevBlock := 0, 0, 0, None;
      lastUsageOperands, lastUsageMemory, trace := map[], map[], [];
      new;
      if cfg.window > 0 {
        WindowCycleIs([], cfg.window, 0);
      }
    }

    method LookupOperand(v: Value) returns (c: Cycles)
      ensures c == Lookup(lastUsageOperands, v)
    {
      c := Cycles(0, 0);
      if v in lastUsageOperands { c := lastUsageOperands[v]; }
    }

    method InsertOperandUsage(v: Value, c: Cycles)
      modifies this`lastUsageOperands
      ensures lastUsageOperands == Insert(old(lastUsageOperands), v, c)
    {
      if v.Constant? { return; }
      lastUsageOperands := lastUsageOperands[v := c];
    }

    /** Connect the phi with the value it takes from the block before. */
    method VisitPhi(i: Instr, ghost st: State)
      requires Matches(st) && i.PhiNode?
      modifies this`lastUsageOperands
      ensures CurrentTables() == AfterPhi(st, i).tables
    {
      var k := 0;
      while k < |i.incoming|
        invariant 0 <= k <= |i.incoming| && lastUsageOperands == old(lastUsageOperands)
        invariant Chosen(i.incoming, prevBlock) == Chosen(i.incoming[k..], prevBlock)
      {
        if Some(i.incoming[k].block) == prevBlock {
          var v := i.incoming[k].v;
          var usage := LookupOperand(v);
          if !ConstantLike(v) && !v.CallResult? {
            usage := Cycles(usage.value1 + 1, Max(usage.value2 + 1, maxIssueCycleInOrder));
          }
          InsertOperandUsage(Self(i), usage);
          return;
        }
        k := k + 1;
      }
    }

    /** The cycles of a call; its arguments become last uses of the parameters on the way. */
    method CallCycle(i: Instr, c: Cycles) returns (r: Cycles)
      requires i.Call?
      modifies this`lastUsageOperands
      ensures r == Clamped(old(CurrentTables()), Needs(i), c, maxIssueCycleInOrder)
      ensures CurrentTables() == RecordedCall(old(CurrentTables()), i, r)
    {
      r := c;
      if i.callee.None? { return; }
      r := PassArguments(i.callee.value, i.args, c);
      InsertOperandUsage(Self(i), r);
    }

    method PassArguments(callee: Callee, args: seq<Value>, c: Cycles) returns (r: Cycles)
      modifies this`lastUsageOperands
      ensures r == Clamped(old(CurrentTables()), ArgumentNeeds(callee, args, |args|), c, maxIssueCycleInOrder)
      ensures lastUsageOperands == Bound(old(lastUsageOperands), callee, args, |args|)
    {
      r := c;
      ghost var t := CurrentTables();
      var k := 0;
      while k < |args|
        invariant 0 <= k <= |args| && lastUsageOperands == Bound(t.operands, callee, args, k)
        invariant r == ArgumentsUsed(t.operands, callee, args, k, c, maxIssueCycleInOrder)
      {
        var usage := PassArgument(callee, args, k, t.operands);
        r := Use(args[k], usage, r);
        k := k + 1;
      }
      ArgumentsUsedIsClamped(t, callee, args, k, c, maxIssueCycleInOrder);
    }

    /** The last use of the `k`-th argument, which becomes that of its parameter if there is one. */
    method PassArgument(callee: Callee, args: seq<Value>, k: nat, ghost operands: map<Value, Cycles>) returns (usage: Cycles)
      requires k < |args| && lastUsageOperands == Bound(operands, callee, args, k)
      modifies this`lastUsageOperands
      ensures usage == Lookup(operands, Passed(callee, args, k))
      ensures lastUsageOperands == Bound(operands, callee, args, k + 1)
    {
      usage := LookupOperand(args[k]);
      BoundLookup(operands, callee, args, k, args[k]);
      if k < callee.params {
        InsertOperandUsage(Argument(callee.f, k), usage);
      }
    }

    /** Take one use of `v`, whose last use is `usage`, into account. */
    method Use(v: Value, usage: Cycles, c: Cycles) returns (r: Cycles)
      ensures r == Used(v, usage, c, maxIssueCycleInOrder)
    {
      r := c;
      if !ConstantLike(v) {
        r := Cycles(Max(r.value1, 1 + usage.value1), Max(r.value2, 1 + usage.value2));
        r := r.(value2 := Max(r.value2, maxIssueCycleInOrder));
      } else if v.Phi? {
        r := Cycles(Max(r.value1, usage.value1), Max(r.value2, usage.value2));
        r := r.(value2 := Max(r.value2, maxIssueCycleInOrder));
      }
    }

    method OtherReady(operands: seq<Value>, c: Cycles) returns (r: Cycles)
      ensures r == Clamped(CurrentTables(), OperandNeeds(operands, |operands|), c, maxIssueCycleInOrder)
    {
      r := c;
      var k := 0;
      while k < |operands|
        invariant 0 <= k <= |operands| && r == OperandsUsed(lastUsageOperands, operands, k, c, maxIssueCycleInOrder)
      {
        var usage := LookupOperand(operands[k]);
        r := Use(operands[k], usage, r);
        k := k + 1;
      }
      OperandsUsedIsClamped(CurrentTables(), operands, k, c, maxIssueCycleInOrder);
    }

    method OtherCycle(i: Instr, c: Cycles) returns (r: Cycles)
      requires i.Other?
      modifies this`lastUsageOperands
      ensures r == Clamped(old(CurrentTables()), Needs(i), c, maxIssueCycleInOrder)
      ensures lastUsageOperands == old(lastUsageOperands)[Self(i) := r]
    {
      r := OtherReady(i.operands, c);
      InsertOperandUsage(Self(i), r);
    }

    /** A load waits for its pointer and for the stores to its address, if there has been an access. */
    method LoadReady(i: Instr, c: Cycles) returns (r: Cycles)
      requires i.Load?
      ensures r == Clamped(CurrentTables(), Needs(i), c, maxIssueCycleInOrder)
    {
      var op := LookupOperand(i.pointer);
      var c' := MaxCycles(c, Later(op, 1));
      r := c'.(value2 := Max(c'.value2, maxIssueCycleInOrder));
      LoadMet(CurrentTables(), i, c);
      LoadRaises(c', Usage(CurrentTables(), Stored(i.address)), maxIssueCycleInOrder);
      if i.address in lastUsageMemory {
        r := MaxCycles(r, Later(lastUsageMemory[i.address].lastStore, 1));
        r := r.(value2 := Max(r.value2, maxIssueCycleInOrder));
      }
    }

    method LoadCycle(i: Instr, c: Cycles) returns (r: Cycles)
      requires i.Load?
      modifies this`lastUsageOperands, this`lastUsageMemory
      ensures r == Clamped(old(CurrentTables()), Needs(i), c, maxIssueCycleInOrder)
      ensures CurrentTables() == RecordedLoad(old(CurrentTables()), i, r)
    {
      r := LoadReady(i, c);
      var dep := MemoryDep(Cycles(0, 0), r);
      if i.address in lastUsageMemory {
        dep := lastUsageMemory[i.address];
        dep := MemoryDep(dep.lastStore, MaxCycles(dep.lastLoad, r));
      }
      assert dep == Loading(CurrentTables(), i.address, r);
      InsertOperandUsage(Self(i), r);
      lastUsageMemory := lastUsageMemory[i.address := dep];
    }

    /** A store waits for both operands and for the loads and stores of its address. */
    method StoreReady(i: Instr, c: Cycles) returns (r: Cycles)
      requires i.Store?
      ensures r == Clamped(CurrentTables(), Needs(i), c, maxIssueCycleInOrder)
    {
      var op1 := LookupOperand(i.stored);
      var op2 := LookupOperand(i.pointer);
      var c' := MaxCycles(MaxCycles(c, Later(op1, 1)), Later(op2, 1));
      r := c'.(value2 := Max(c'.value2, maxIssueCycleInOrder));
      StoreMet(CurrentTables(), i, c);
      StoreRaises(c', Usage(CurrentTables(), Stored(i.address)), Usage(CurrentTables(), Loaded(i.address)), maxIssueCycleInOrder);
      if i.address in lastUsageMemory {
        var dep := lastUsageMemory[i.address];
        r := MaxCycles(MaxCycles(r, Later(dep.lastStore, 1)), Later(dep.lastLoad, 1));
      }
    }

    method StoreCycle(i: Instr, c: Cycles) returns (r: Cycles)
      requires i.Store?
      modifies this`lastUsageOperands, this`lastUsageMemory
      ensures r == Clamped(old(CurrentTables()), Needs(i), c, maxIssueCycleInOrder)
      ensures CurrentTables() == RecordedStore(old(CurrentTables()), i, r)
    {
      r := StoreReady(i, c);
      var dep := MemoryDep(r, Cycles(0, 0));
      if i.address in lastUsageMemory {
        dep := lastUsageMemory[i.address];
        dep := MemoryDep(MaxCycles(dep.lastStore, r), dep.lastLoad);
      }
      assert dep == Storing(CurrentTables(), i.address, r);
      InsertOperandUsage(Self(i), r);
      InsertOperandUsage(i.pointer, r);
      lastUsageMemory := lastUsageMemory[i.address := dep];
    }

    method GetInstIssueCycle(i: Instr, c: Cycles) returns (r: Cycles)
      requires !i.PhiNode?
      modifies this`lastUsageOperands, this`lastUsageMemory
      ensures r == Clamped(old(CurrentTables()), Needs(i), c, maxIssueCycleInOrder)
      ensures CurrentTables() == Recorded(old(CurrentTables()), i, r)
    {
      match i
      case Call(_, _, _, _) => r := CallCycle(i, c);
      case Other(_, _, _, _) => r := OtherCycle(i, c);
      case Load(_, _, _, _) => r := LoadCycle(i, c);
      case Store(_, _, _, _, _) => r := StoreCycle(i, c);
    }

    method Visit(i: Instr)
      requires Valid()
      modifies this
      ensures Valid() && trace == old(trace) + [Event.Visit(i)]
    {
      ghost var st := Run(cfg, trace);
      if i.PhiNode? {
        VisitPhi(i, st);
        PhiKeeps(st, i);
      } else {
        VisitOther(i, st);
      }
      assert Matches(AfterVisit(cfg, st, i));
      RunVisit(cfg, trace, i);
      trace := trace + [Event.Visit(i)];
    }

    method VisitOther(i: Instr, ghost st: State)
      requires Matches(st) && !i.PhiNode?
      modifies this`scheduler, this`schedulerInOrder, this`windowCycle, this`windowCycleInOrder, this`minIssueCycleForCtrl,
               this`maxIssueCycle, this`maxIssueCycleInOrder, this`prevBlock, this`lastUsageOperands, this`lastUsageMemory
      ensures Matches(AfterVisit(cfg, st, i))
    {
      var c := ReadyCycle(i, st);
      ghost var t := CurrentTables();
      if cfg.ignoreControl && IsControl(i) { return; }
      c := Schedule(i, c, st.issued);
      assert Matches(Scheduling(cfg, st, t, i, c));
    }

    /** The cycles without regard to the serialisation of control. */
    method ReadyCycle(i: Instr, ghost st: State) returns (c: Cycles)
      requires Matches(st) && !i.PhiNode?
      modifies this`lastUsageOperands, this`lastUsageMemory
      ensures c == Raised(Ready(cfg, st, i), st.issued) && CurrentTables() == Recorded(st.tables, i, Ready(cfg, st, i))
      ensures c.value1 >= windowCycle && c.value2 >= windowCycleInOrder
    {
      c := Cycles(0, 0);
      if cfg.window != 0 { c := Cycles(windowCycle, windowCycleInOrder); }
      c := GetInstIssueCycle(i, c);
      assert c == Ready(cfg, st, i);
      IssueInWindow(cfg, st, i);
      if c.value2 < maxIssueCycleInOrder { c := c.(value2 := maxIssueCycleInOrder); }
    }

    method SerialiseControl(i: Instr, ready: Cycles) returns (c: Cycles)
      modifies this`minIssueCycleForCtrl
      ensures c == Serialised(cfg, i, ready, old(minIssueCycleForCtrl))
      ensures c.value1 >= ready.value1 && c.value2 == ready.value2
      ensures minIssueCycleForCtrl == if cfg.serialControl && IsControl(i) then c.value1 + 1 else old(minIssueCycleForCtrl)
    {
      c := ready;
      if cfg.serialControl && IsControl(i) {
        c := c.(value1 := Max(c.value1, minIssueCycleForCtrl));
        minIssueCycleForCtrl := c.value1 + 1;
      }
    }

    method Count(ghost issued: seq<Issued>, x: Issued)
      requires maxIssueCycle == MaxOf(Out(issued)) && maxIssueCycleInOrder == MaxOf(InOrder(issued))
      modifies this`maxIssueCycle, this`maxIssueCycleInOrder, this`prevBlock
      ensures var issued' := issued + [x];
        && maxIssueCycle == MaxOf(Out(issued')) && maxIssueCycleInOrder == MaxOf(InOrder(issued'))
        && prevBlock == LastBlock(Instrs(issued'))
    {
      CountersAfter(issued, x);
      maxIssueCycle := Max(maxIssueCycle, x.cycles.value1);
      maxIssueCycleInOrder := Max(maxIssueCycleInOrder, x.cycles.value2);
      prevBlock := Some(x.instr.parent);
    }

    /** The end of a visit that schedules the instruction. */
    method Schedule(i: Instr, ready: Cycles, ghost issued: seq<Issued>) returns (c: Cycles)
      requires maxIssueCycle == MaxOf(Out(issued)) && maxIssueCycleInOrder == MaxOf(InOrder(issued)) && WindowsMatch(issued)
      requires ready.value1 >= windowCycle && ready.value2 >= windowCycleInOrder
      modifies this`scheduler, this`schedulerInOrder, this`windowCycle, this`windowCycleInOrder, this`minIssueCycleForCtrl,
               this`maxIssueCycle, this`maxIssueCycleInOrder, this`prevBlock, this`lastUsageOperands
      ensures c == Serialised(cfg, i, ready, old(minIssueCycleForCtrl))
      ensures minIssueCycleForCtrl == if cfg.serialControl && IsControl(i) then c.value1 + 1 else old(minIssueCycleForCtrl)
      ensures lastUsageOperands == old(lastUsageOperands)[Self(i) := c]
      ensures var issued' := issued + [Issued(i, c)];
        && maxIssueCycle == MaxOf(Out(issued')) && maxIssueCycleInOrder == MaxOf(InOrder(issued'))
        && prevBlock == LastBlock(Instrs(issued')) && WindowsMatch(issued')
    {
      c := SerialiseControl(i, ready);
      InsertOperandUsage(Self(i), c);
      Count(issued, Issued(i, c));
      Advance(issued, Issued(i, c));
    }

    /** Enter an instruction into both windows. */
    method Advance(ghost issued: seq<Issued>, x: Issued)
      requires WindowsMatch(issued)
      requires x.cycles.value1 >= windowCycle && x.cycles.value2 >= windowCycleInOrder
      modifies this`scheduler, this`schedulerInOrder, this`windowCycle, this`windowCycleInOrder
      ensures WindowsMatch(issued + [x])
    {
      OutSnoc(issued, x);
      if cfg.window != 0 {
        EnterWindow(Out(issued), x.cycles.value1, cfg.window);
        EnterWindow(InOrder(issued), x.cycles.value2, cfg.window);
        scheduler := scheduler + [x.cycles.value1];
        scheduler, windowCycle := Release(cfg.window, scheduler, windowCycle, Out(issued + [x]));
        schedulerInOrder := schedulerInOrder + [x.cycles.value2];
        schedulerInOrder, windowCycleInOrder := Release(cfg.window, schedulerInOrder, windowCycleInOrder, InOrder(issued + [x]));
      }
    }

    /** The result of a call is there when both the return and the call have issued. */
    method UpdateForCall(result: Value, call: Value)
      requires Valid()
      modifies this
      ensures Valid() && trace == old(trace) + [Return(result, call)]
    {
      ghost var st := Run(cfg, trace);
      SetLater(result, call);
      assert Matches(Step(cfg, st, Return(result, call)));
      RunReturn(cfg, trace, result, call);
      trace := trace + [Return(result, call)];
    }

    method SetLater(result: Value, call: Value)
      modifies this`lastUsageOperands
      ensures var t := old(lastUsageOperands);
        lastUsageOperands == Insert(t, call, MaxCycles(Lookup(t, result), Lookup(t, call)))
    {
      var returned := LookupOperand(result);
      var called := LookupOperand(call);
      if returned.value1 >= called.value1 {
        if returned.value2 >= called.value2 {
          InsertOperandUsage(call, returned);
        } else {
          InsertOperandUsage(call, Cycles(returned.value1, called.value2));
        }
      } else if returned.value2 >= called.value2 {
        InsertOperandUsage(call, Cycles(called.value1, returned.value2));
      }
    }

    /** The spans that are dumped. */
    method Spans() returns (span: nat, spanInOrder: nat)
      requires Valid()
      ensures var issued := Run(cfg, trace).issued;
        span == MaxOf(Out(issued)) + 1 && spanInOrder == MaxOf(InOrder(issued)) + 1
      ensures !cfg.serialControl ==> span <= spanInOrder
    {
      if !cfg.serialControl { SpanIsNeverLonger(cfg, trace); }
      return maxIssueCycle + 1, maxIssueCycleInOrder + 1;
    }
  }

  lemma MetPrefix(t: Tables, needs: seq<Need>, k: nat, floor: Cycles)
    requires k < |needs|
    ensures Met(t, needs[..k + 1], floor)
            == MaxCycles(Met(t, needs[..k], floor), Later(Usage(t, needs[k].source), needs[k].delay))
  {
    assert needs[..k + 1][..k] == needs[..k];
  }

  lemma LoadMet(t: Tables, i: Instr, floor: Cycles)
    requires i.Load?
    ensures Met(t, Needs(i), floor)
            == MaxCycles(MaxCycles(floor, Later(Usage(t, Operand(i.pointer)), 1)), Later(Usage(t, Stored(i.address)), 1))
  {
    MetPrefix(t, Needs(i), 0, floor);
    MetPrefix(t, Needs(i), 1, floor);
    assert Needs(i)[..2] == Needs(i);
  }

  lemma StoreMet(t: Tables, i: Instr, floor: Cycles)
    requires i.Store?
    ensures Met(t, Needs(i), floor)
            == MaxCycles(MaxCycles(MaxCycles(MaxCycles(floor, Later(Usage(t, Operand(i.stored)), 1)),
                                             Later(Usage(t, Operand(i.pointer)), 1)),
                                   Later(Usage(t, Stored(i.address)), 1)), Later(Usage(t, Loaded(i.address)), 1))
  {
    MetPrefix(t, Needs(i), 0, floor);
    MetPrefix(t, Needs(i), 1, floor);
    MetPrefix(t, Needs(i), 2, floor);
    MetPrefix(t, Needs(i), 3, floor);
    assert Needs(i)[..4] == Needs(i);
  }

  lemma LoadRaises(c: Cycles, stored: Cycles, latest: nat)
    ensures var r, early := MaxCycles(c, Later(stored, 1)), MaxCycles(c.(value2 := Max(c.value2, latest)), Later(stored, 1));
      && early.(value2 := Max(early.value2, latest)) == r.(value2 := Max(r.value2, latest))
      && (c.value1 > 0 && c.value2 > 0 && stored == NEVER ==> r == c)
  {
  }

  /** Raising the in-order cycle early comes to the same, and accesses never made add nothing. */
  lemma StoreRaises(c: Cycles, stored: Cycles, loaded: Cycles, latest: nat)
    ensures var r := MaxCycles(MaxCycles(c, Later(stored, 1)), Later(loaded, 1));
      && MaxCycles(MaxCycles(c.(value2 := Max(c.value2, latest)), Later(stored, 1)), Later(loaded, 1))
         == r.(value2 := Max(r.value2, latest))
      && (c.value1 > 0 && c.value2 > 0 && stored == loaded == NEVER ==> r == c)
  {
  }

  /** The run one visit further on. */
  lemma RunVisit(cfg: Config, trace: seq<Event>, i: Instr)
    ensures Run(cfg, trace + [Event.Visit(i)]) == AfterVisit(cfg, Run(cfg, trace), i)
  {
    assert (trace + [Event.Visit(i)])[..|trace|] == trace;
  }

  lemma RunReturn(cfg: Config, trace: seq<Event>, result: Value, call: Value)
    ensures Run(cfg, trace + [Return(result, call)]) == Step(cfg, Run(cfg, trace), Return(result, call))
  {
    assert (trace + [Return(result, call)])[..|trace|] == trace;
  }

  lemma PhiKeeps(st: State, i: Instr)
    requires i.PhiNode?
    ensures AfterPhi(st, i).issued == st.issued && AfterPhi(st, i).minControl == st.minControl
  {
  }

  lemma CountersAfter(issued: seq<Issued>, x: Issued)
    ensures MaxOf(Out(issued + [x])) == Max(MaxOf(Out(issued)), x.cycles.value1)
    ensures MaxOf(InOrder(issued + [x])) == Max(MaxOf(InOrder(issued)), x.cycles.value2)
    ensures LastBlock(Instrs(issued + [x])) == Some(x.instr.parent)
  {
    OutSnoc(issued, x);
    MaxOfSnoc(Out(issued), x.cycles.value1);
    MaxOfSnoc(InOrder(issued), x.cycles.value2);
  }

  /** Nothing issues in front of the windows. */
  lemma IssueInWindow(cfg: Config, st: State, i: Instr)
    ensures var floor, c := Floor(cfg, st.issued), Raised(Ready(cfg, st, i), st.issued);
      c.value1 >= floor.value1 && c.value2 >= floor.value2
  {
    MetFloor(st.tables, Needs(i), Floor(cfg, st.issued));
  }

  lemma {:induction false} MetFloor(t: Tables, needs: seq<Need>, floor: Cycles)
    ensures var c := Met(t, needs, floor); c.value1 >= floor.value1 && c.value2 >= floor.value2
    decreases |needs|
  {
    if needs != [] {
      MetFloor(t, needs[..|needs| - 1], floor);
    }
  }

  lemma EnterWindow(issued: seq<nat>, x: nat, w: nat)
    requires w > 0 && x >= WindowCycle(issued, w)
    ensures var c := WindowCycle(issued, w);
      && AtLeast(issued + [x], c) == AtLeast(issued, c) + [x]
      && (c > 0 ==> |AtLeast(issued + [x], c - 1)| >= w)
  {
    var c := WindowCycle(issued, w);
    AtLeastSnoc(issued, x, c);
    if c > 0 {
      AtLeastSnoc(issued, x, c - 1);
    }
  }
}
