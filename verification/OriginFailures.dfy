/** Runs in which the tables of the scheduler lose a value, so that an instruction does not wait for the
    one that made its operand. */
module OriginFailures {
  import opened Basics
  import opened IssueWindow
  import opened IlpSchedule
  import opened IlpRuns
  import opened DataFlow
  import opened Origins

  lemma RunSnoc(cfg: Config, trace: seq<Event>, e: Event)
    ensures Run(cfg, trace + [e]) == Step(cfg, Run(cfg, trace), e)
  {
    assert (trace + [e])[..|trace|] == trace;
  }

  lemma ScheduledSnoc(cfg: Config, trace: seq<Event>, e: Event)
    ensures Scheduled(cfg, trace + [e]) == Scheduled(cfg, trace) + (if e.Visit? && !IsIgnored(cfg, e.i) then [e.i] else [])
  {
    assert (trace + [e])[..|trace|] == trace;
  }

  lemma ActivationsSnoc(prog: Program, cfg: Config, trace: seq<Event>, e: Event)
    ensures Activations(prog, cfg, trace + [e])
            == Proceed(prog, cfg, Activations(prog, cfg, trace), e, |Scheduled(cfg, trace)|)
  {
    assert (trace + [e])[..|trace|] == trace;
  }

  /** The out-of-order cycle recorded for a value behind a trace. */
  function CycleOf(cfg: Config, trace: seq<Event>, v: Value): nat {
    CycleIn(Run(cfg, trace), v)
  }

  function CycleIn(st: State, v: Value): nat {
    Lookup(st.tables.operands, v).value1
  }

  /** The out-of-order cycles of the instructions scheduled in a trace. */
  function CyclesOf(cfg: Config, trace: seq<Event>): seq<nat> {
    CyclesIn(Run(cfg, trace))
  }

  function CyclesIn(st: State): seq<nat> {
    Out(st.issued)
  }

  /** The out-of-order cycles come from the dependences alone. */
  predicate Unrestricted(cfg: Config) {
    cfg.window == 0 && !cfg.serialControl
  }

  /** An instruction of block `b` that uses some values. */
  function Computing(id: nat, used: seq<Value>, b: nat): Event {
    Visit(Other(id, used, false, b))
  }

  // ----- An instruction with at most one operand -------------------------------------------

  /** Its cycle is that of its operand, and one more unless that is a phi. */
  function Behind(operands: map<Value, Cycles>, used: seq<Value>): nat {
    if used == [] then 0 else Lookup(operands, used[0]).value1 + (if used[0].Phi? then 0 else 1)
  }

  ghost predicate UsesOne(used: seq<Value>) {
    |used| <= 1 && forall k :: 0 <= k < |used| ==> IsMade(used[k])
  }

  lemma ReadyOf(cfg: Config, st: State, i: Instr)
    requires Unrestricted(cfg) && i.Other? && UsesOne(i.operands)
    ensures Ready(cfg, st, i).value1 == Behind(st.tables.operands, i.operands)
  {
    assert OperandNeeds(i.operands, 0) == [];
    if i.operands == [] {
      assert Needs(i) == [];
    } else {
      var v, floor := i.operands[0], Floor(cfg, st.issued);
      var need := Need(Operand(v), if v.Phi? then 0 else 1);
      assert Needs(i) == [] + [need] == [need] && [need][..0] == [];
      assert Met(st.tables, [need], floor) == MaxCycles(Met(st.tables, [], floor), Later(Usage(st.tables, need.source), need.delay));
    }
  }

  lemma ComputedStep(cfg: Config, st: State, id: nat, used: seq<Value>, b: nat, v: Value)
    requires Unrestricted(cfg) && UsesOne(used)
    ensures var c, st' := Behind(st.tables.operands, used), Step(cfg, st, Computing(id, used, b));
      && Out(st'.issued) == Out(st.issued) + [c]
      && Lookup(st'.tables.operands, v).value1 == if v == Result(id) then c else Lookup(st.tables.operands, v).value1
  {
    var i := Computing(id, used, b).i;
    ReadyOf(cfg, st, i);
    OutSnoc(st.issued, Issued(i, Issue(cfg, st, i)));
  }

  lemma Computed(cfg: Config, trace: seq<Event>, id: nat, used: seq<Value>, b: nat, v: Value)
    requires Unrestricted(cfg) && UsesOne(used)
    ensures var trace', c := trace + [Computing(id, used, b)], Behind(Run(cfg, trace).tables.operands, used);
      && CyclesOf(cfg, trace') == CyclesOf(cfg, trace) + [c]
      && CycleOf(cfg, trace', v) == if v == Result(id) then c else CycleOf(cfg, trace, v)
  {
    RunSnoc(cfg, trace, Computing(id, used, b));
    ComputedStep(cfg, Run(cfg, trace), id, used, b, v);
  }

  lemma ComputedOrigin(prog: Program, cfg: Config, trace: seq<Event>, id: nat, used: seq<Value>, b: nat, v: Value)
    ensures var trace' := trace + [Computing(id, used, b)];
      && Origin(prog, cfg, trace', v)
         == (if v == Result(id) then Some(Made(|Scheduled(cfg, trace)|, 0, true)) else Origin(prog, cfg, trace, v))
      && Running(prog, cfg, trace').block == Some(b) && Running(prog, cfg, trace').entry == None
      && LastBlock(Scheduled(cfg, trace')) == Some(b) && |Scheduled(cfg, trace')| == |Scheduled(cfg, trace)| + 1
  {
    ActivationsSnoc(prog, cfg, trace, Computing(id, used, b));
    ScheduledSnoc(cfg, trace, Computing(id, used, b));
  }

  lemma NotInOrder(prog: Program, cfg: Config, trace: seq<Event>, e: Event, v: Value)
    requires e.Visit?
    requires var m, c, k := Origin(prog, cfg, trace, v), CyclesOf(cfg, trace + [e]), |Scheduled(cfg, trace)|;
      m.Some? && (m.value.k < k < |c| ==> c[m.value.k] + m.value.lag + Wait(e.i, v) > c[k])
    ensures !InOrderWith(prog, cfg, trace + [e], false, |trace|, v)
  {
    assert (trace + [e])[..|trace|] == trace;
  }

  lemma BehindOne(operands: map<Value, Cycles>, id: nat, v: Value, b: nat)
    requires IsMade(v)
    ensures Behind(operands, [v]) == Lookup(operands, v).value1 + Wait(Computing(id, [v], b).i, v) && UsesOne([v])
  {
  }

  lemma BehindUsed(cfg: Config, trace: seq<Event>, id: nat, v: Value, b: nat)
    requires IsMade(v)
    ensures Behind(Run(cfg, trace).tables.operands, [v]) == CycleOf(cfg, trace, v) + Wait(Computing(id, [v], b).i, v) && UsesOne([v])
  {
    BehindOne(Run(cfg, trace).tables.operands, id, v, b);
  }

  lemma UserCycle(cfg: Config, trace: seq<Event>, id: nat, v: Value, b: nat)
    requires Unrestricted(cfg) && IsMade(v)
    ensures var e := Computing(id, [v], b);
      CyclesOf(cfg, trace + [e]) == CyclesOf(cfg, trace) + [CycleOf(cfg, trace, v) + Wait(e.i, v)]
  {
    var e := Computing(id, [v], b);
    var x := Behind(Run(cfg, trace).tables.operands, [v]);
    assert UsesOne([v]) && x == CycleOf(cfg, trace, v) + Wait(e.i, v) by {
      BehindUsed(cfg, trace, id, v, b);
    }
    assert CyclesOf(cfg, trace + [e]) == CyclesOf(cfg, trace) + [x] by {
      Computed(cfg, trace, id, [v], b, v);
    }
  }

  lemma OneCycleEach(cfg: Config, trace: seq<Event>)
    ensures |CyclesOf(cfg, trace)| == |Scheduled(cfg, trace)|
  {
    ScheduledAreIssued(cfg, trace);
  }

  /** If a value has an earlier cycle than the instruction that made it and its way allow, what uses it
      overtakes that instruction. */
  lemma Overtakes(prog: Program, cfg: Config, trace: seq<Event>, id: nat, v: Value, b: nat)
    requires Unrestricted(cfg) && IsMade(v)
    requires var m, c := Origin(prog, cfg, trace, v), CyclesOf(cfg, trace);
      m.Some? && m.value.k < |c| && c[m.value.k] + m.value.lag > CycleOf(cfg, trace, v)
    ensures !InOrderWith(prog, cfg, trace + [Computing(id, [v], b)], false, |trace|, v)
  {
    UserCycle(cfg, trace, id, v, b);
    OneCycleEach(cfg, trace);
    NotInOrder(prog, cfg, trace, Computing(id, [v], b), v);
  }

  /** The instruction that made `a` issues behind the cycle of `b`, in the same activation. */
  ghost predicate IsLater(prog: Program, cfg: Config, trace: seq<Event>, a: Value, b: Value) {
    var m, c := Origin(prog, cfg, trace, a), CyclesOf(cfg, trace);
    && a.Result? && b.Result? && m.Some? && m.value.k < |c| && c[m.value.k] > CycleOf(cfg, trace, b)
  }

  /** Any instruction that uses another is later. */
  lemma UserIsLater(prog: Program, cfg: Config, trace: seq<Event>, v: Value, id: nat, b: nat)
    requires Unrestricted(cfg) && v.Result? && v != Result(id)
    ensures var t := trace + [Computing(id, [v], b)];
      && IsLater(prog, cfg, t, Result(id), v) && LastBlock(Scheduled(cfg, t)) == Some(b) == Running(prog, cfg, t).block
      && Running(prog, cfg, t).entry == None
  {
    UserCycle(cfg, trace, id, v, b);
    OneCycleEach(cfg, trace);
    Computed(cfg, trace, id, [v], b, v);
    ComputedOrigin(prog, cfg, trace, id, [v], b, Result(id));
  }

  // ----- A call that swaps two parameters --------------------------------------------------

  function Calling(id: nat, f: nat, args: seq<Value>): Event {
    Visit(Call(id, Some(Callee(f, |args|)), args, 0))
  }

  lemma CalledCycle(cfg: Config, trace: seq<Event>, id: nat, f: nat, args: seq<Value>, j: nat)
    requires j < |args|
    ensures CycleOf(cfg, trace + [Calling(id, f, args)], Argument(f, j)) == CycleOf(cfg, trace, Passed(Callee(f, |args|), args, j))
  {
    RunSnoc(cfg, trace, Calling(id, f, args));
    UsageAfter(cfg, Run(cfg, trace), Calling(id, f, args).i, Operand(Argument(f, j)));
  }

  lemma CalledOrigin(prog: Program, cfg: Config, trace: seq<Event>, id: nat, f: nat, args: seq<Value>, j: nat)
    requires f in prog.defined && j < |args|
    ensures Origin(prog, cfg, trace + [Calling(id, f, args)], Argument(f, j))
            == HandedOn(Origin(prog, cfg, trace, args[j]), 0, KeepsOwn(Callee(f, |args|), args, j))
  {
    var e := Calling(id, f, args);
    ActivationsSnoc(prog, cfg, trace, e);
    PassesAt(Callee(f, |args|), args, Running(prog, cfg, trace).values, |args|, Argument(f, j));
  }

  /** A function calls itself with its two parameters swapped: the second is then what was the first, but
      has kept its own cycle. */
  lemma SwapMistakes(prog: Program, cfg: Config, trace: seq<Event>, id: nat, f: nat)
    requires f in prog.defined
    ensures var trace' := trace + [Calling(id, f, [Argument(f, 1), Argument(f, 0)])];
      && Origin(prog, cfg, trace', Argument(f, 1)) == HandedOn(Origin(prog, cfg, trace, Argument(f, 0)), 0, false)
      && CycleOf(cfg, trace', Argument(f, 1)) == CycleOf(cfg, trace, Argument(f, 1))
  {
    var args := [Argument(f, 1), Argument(f, 0)];
    CalledCycle(cfg, trace, id, f, args, 1);
    CalledOrigin(prog, cfg, trace, id, f, args, 1);
    assert Passed(Callee(f, 2), args, 1) == Passed(Callee(f, 2), args, 0) == Argument(f, 1);
  }

  // ----- Phis that swap --------------------------------------------------------------------

  lemma PhiStep(cfg: Config, trace: seq<Event>, i: Instr, w: Value, v: Value)
    requires i.PhiNode? && Chosen(i.incoming, LastBlock(Scheduled(cfg, trace))) == Some(w)
    ensures CycleOf(cfg, trace + [Visit(i)], v)
            == if v == Self(i) then CycleOf(cfg, trace, w) + PhiDelay(w) else CycleOf(cfg, trace, v)
    ensures Scheduled(cfg, trace + [Visit(i)]) == Scheduled(cfg, trace)
    ensures CyclesOf(cfg, trace + [Visit(i)]) == CyclesOf(cfg, trace)
  {
    RunSnoc(cfg, trace, Visit(i));
    ScheduledSnoc(cfg, trace, Visit(i));
    ScheduledAreIssued(cfg, trace);
  }

  /** Two phis of a block take each other's values: the second gets back its own cycle, the one of the
      first is lost. */
  lemma PhiSwapMistakes(prog: Program, cfg: Config, trace: seq<Event>, p: Instr, q: Instr, b: nat)
    requires p.PhiNode? && q.PhiNode? && p.id != q.id
    requires Chosen(p.incoming, Some(b)) == Some(Self(q)) && Chosen(q.incoming, Some(b)) == Some(Self(p))
    requires LastBlock(Scheduled(cfg, trace)) == Some(b) == Running(prog, cfg, trace).block
    requires Running(prog, cfg, trace).entry == None
    ensures var trace' := trace + [Visit(p)] + [Visit(q)];
      && Origin(prog, cfg, trace', Self(q)) == HandedOn(Origin(prog, cfg, trace, Self(p)), 0, false)
      && CycleOf(cfg, trace', Self(q)) == CycleOf(cfg, trace, Self(q))
      && CyclesOf(cfg, trace') == CyclesOf(cfg, trace)
  {
    PhiStep(cfg, trace, p, Self(q), Self(p));
    PhiStep(cfg, trace + [Visit(p)], q, Self(p), Self(q));
    ActivationsSnoc(prog, cfg, trace, Visit(p));
    ActivationsSnoc(prog, cfg, trace + [Visit(p)], Visit(q));
  }

  // ----- Recursion -------------------------------------------------------------------------

  /** A function calls itself with a constant, and the call returns. */
  function CallItself(trace: seq<Event>, f: nat, id: nat, ret: nat): seq<Event> {
    trace + [Calling(id, f, [Constant(0)])] + [Visit(Other(ret, [], true, 0))] + [Return(Result(ret), CallResult(id))]
  }

  /** What the activation below the running one has for a value. */
  function BelowTop(stack: seq<Activation>, v: Value): Option<Made> {
    if |stack| <= 1 then None else Get(stack[|stack| - 2].values, v)
  }

  function Below(prog: Program, cfg: Config, trace: seq<Event>, v: Value): Option<Made> {
    BelowTop(Activations(prog, cfg, trace), v)
  }

  lemma PushedBelow(prog: Program, cfg: Config, stack: seq<Activation>, e: Event, n: nat, v: Value)
    requires stack != [] && e.Visit? && IsEntered(prog, e.i) && IsParameter(e.i, v)
    ensures var r := Proceed(prog, cfg, stack, e, n);
      |r| == |stack| + 1 && BelowTop(r, v) == HandedOn(Get(stack[|stack| - 1].values, v), 0, false)
  {
  }

  lemma LeftBelow(prog: Program, cfg: Config, stack: seq<Activation>, e: Event, n: nat, v: Value)
    requires |stack| > 1 && e.Visit? && !IsEntered(prog, e.i) && !Writes(e, v)
    ensures var r := Proceed(prog, cfg, stack, e, n);
      |r| == |stack| && BelowTop(r, v) == BelowTop(stack, v)
  {
  }

  lemma CallPushes(prog: Program, cfg: Config, trace: seq<Event>, id: nat, f: nat, args: seq<Value>, j: nat)
    requires f in prog.defined && j < |args|
    ensures |Activations(prog, cfg, trace + [Calling(id, f, args)])| > 1
    ensures Below(prog, cfg, trace + [Calling(id, f, args)], Argument(f, j))
            == HandedOn(Origin(prog, cfg, trace, Argument(f, j)), 0, false)
  {
    var e := Calling(id, f, args);
    ActivationsSnoc(prog, cfg, trace, e);
    PushedBelow(prog, cfg, Activations(prog, cfg, trace), e, |Scheduled(cfg, trace)|, Argument(f, j));
  }

  /** A terminator without operands changes no cycle but its own. */
  lemma ExitCycle(cfg: Config, trace: seq<Event>, exit: Instr, v: Value)
    requires exit.Other? && v != Self(exit)
    ensures CycleOf(cfg, trace + [Visit(exit)], v) == CycleOf(cfg, trace, v)
  {
    RunSnoc(cfg, trace, Visit(exit));
    assert EffectOn(cfg, exit, Operand(v)) == Kept;
    UsageAfter(cfg, Run(cfg, trace), exit, Operand(v));
  }

  lemma ExitStays(prog: Program, cfg: Config, trace: seq<Event>, ret: nat, v: Value)
    requires v != Result(ret) && |Activations(prog, cfg, trace)| > 1
    ensures var trace' := trace + [Visit(Other(ret, [], true, 0))];
      |Activations(prog, cfg, trace')| > 1 && Below(prog, cfg, trace', v) == Below(prog, cfg, trace, v)
  {
    var exit := Visit(Other(ret, [], true, 0));
    var stack, n := Activations(prog, cfg, trace), |Scheduled(cfg, trace)|;
    LeftBelow(prog, cfg, stack, exit, n, v);
    assert Activations(prog, cfg, trace + [exit]) == Proceed(prog, cfg, stack, exit, n) by {
      ActivationsSnoc(prog, cfg, trace, exit);
    }
  }

  lemma PoppedTop(prog: Program, cfg: Config, stack: seq<Activation>, result: Value, call: Value, n: nat, v: Value)
    requires |stack| > 1 && v != call
    ensures var r := Proceed(prog, cfg, stack, Return(result, call), n);
      Get(r[|r| - 1].values, v) == BelowTop(stack, v)
  {
  }

  lemma ReturnPops(prog: Program, cfg: Config, trace: seq<Event>, result: Value, call: Value, v: Value)
    requires |Activations(prog, cfg, trace)| > 1 && v != call
    ensures var trace' := trace + [Return(result, call)];
      Origin(prog, cfg, trace', v) == Below(prog, cfg, trace, v) && CycleOf(cfg, trace', v) == CycleOf(cfg, trace, v)
  {
    ActivationsSnoc(prog, cfg, trace, Return(result, call));
    PoppedTop(prog, cfg, Activations(prog, cfg, trace), result, call, |Scheduled(cfg, trace)|, v);
    assert Run(cfg, trace + [Return(result, call)]) == Step(cfg, Run(cfg, trace), Return(result, call)) by {
      RunSnoc(cfg, trace, Return(result, call));
    }
  }

  /** Its parameter is then what it was, but has the cycle of the constant. */
  lemma RecursionMistakes(prog: Program, cfg: Config, trace: seq<Event>, f: nat, id: nat, ret: nat)
    requires f in prog.defined
    ensures var trace' := CallItself(trace, f, id, ret);
      && Origin(prog, cfg, trace', Argument(f, 0)) == HandedOn(Origin(prog, cfg, trace, Argument(f, 0)), 0, false)
      && CycleOf(cfg, trace', Argument(f, 0)) == CycleOf(cfg, trace, Constant(0))
  {
    var t := trace + [Calling(id, f, [Constant(0)])];
    CalledCycle(cfg, trace, id, f, [Constant(0)], 0);
    CallPushes(prog, cfg, trace, id, f, [Constant(0)], 0);
    ExitCycle(cfg, t, Other(ret, [], true, 0), Argument(f, 0));
    ExitStays(prog, cfg, t, ret, Argument(f, 0));
    ReturnPops(prog, cfg, t + [Visit(Other(ret, [], true, 0))], Result(ret), CallResult(id), Argument(f, 0));
  }

  // ----- A block without scheduled instructions --------------------------------------------

  lemma BranchLeft(prog: Program, cfg: Config, stack: seq<Activation>, branch: Instr, n: nat, v: Value)
    requires stack != [] && cfg.ignoreControl && branch.Other? && branch.control && v != Self(branch)
    ensures var r, a := Proceed(prog, cfg, stack, Visit(branch), n), stack[|stack| - 1];
      var a' := r[|r| - 1];
      && Get(a'.values, v) == Get(a.values, v) && a'.block == Some(branch.parent) && a'.entry == None
      && (a.block != Some(branch.parent) ==> !a'.seen)
  {
  }

  lemma BranchIgnored(prog: Program, cfg: Config, trace: seq<Event>, branch: Instr, v: Value)
    requires cfg.ignoreControl && branch.Other? && branch.control && v != Self(branch)
    ensures var trace' := trace + [Visit(branch)];
      && CyclesOf(cfg, trace') == CyclesOf(cfg, trace) && Scheduled(cfg, trace') == Scheduled(cfg, trace)
      && CycleOf(cfg, trace', v) == CycleOf(cfg, trace, v) && Origin(prog, cfg, trace', v) == Origin(prog, cfg, trace, v)
      && Running(prog, cfg, trace').block == Some(branch.parent) && Running(prog, cfg, trace').entry == None
      && (Running(prog, cfg, trace).block != Some(branch.parent) ==> !Running(prog, cfg, trace').seen)
  {
    ExitCycle(cfg, trace, branch, v);
    RunSnoc(cfg, trace, Visit(branch));
    ScheduledSnoc(cfg, trace, Visit(branch));
    ActivationsSnoc(prog, cfg, trace, Visit(branch));
    StepIssues(cfg, Run(cfg, trace), Visit(branch));
    BranchLeft(prog, cfg, Activations(prog, cfg, trace), branch, |Scheduled(cfg, trace)|, v);
  }

  /** With control ignored, a block that only branches on is not seen: the phi behind it takes the value
      for the block before. */
  lemma LoneBranchMistakes(prog: Program, cfg: Config, trace: seq<Event>, branch: Instr, p: Instr, b: nat, u: Value, w: Value)
    requires cfg.ignoreControl && branch.Other? && branch.control && p.PhiNode?
    requires LastBlock(Scheduled(cfg, trace)) == Some(b) && Running(prog, cfg, trace).block != Some(branch.parent)
    requires Chosen(p.incoming, Some(b)) == Some(u) && Chosen(p.incoming, Some(branch.parent)) == Some(w)
    requires u != Self(branch) && w != Self(branch)
    ensures var trace' := trace + [Visit(branch)] + [Visit(p)];
      && Origin(prog, cfg, trace', Self(p)) == HandedOn(Origin(prog, cfg, trace, w), PhiDelay(w), false)
      && CycleOf(cfg, trace', Self(p)) == CycleOf(cfg, trace, u) + PhiDelay(u)
      && CyclesOf(cfg, trace') == CyclesOf(cfg, trace)
  {
    var t := trace + [Visit(branch)];
    BranchIgnored(prog, cfg, trace, branch, u);
    BranchIgnored(prog, cfg, trace, branch, w);
    PhiStep(cfg, t, p, u, Self(p));
    ActivationsSnoc(prog, cfg, t, Visit(p));
  }

  // ----- Instructions that overtake --------------------------------------------------------

  lemma CallIgnored(cfg: Config, trace: seq<Event>, id: nat, f: nat, args: seq<Value>)
    requires cfg.ignoreControl
    ensures CyclesOf(cfg, trace + [Calling(id, f, args)]) == CyclesOf(cfg, trace)
  {
    RunSnoc(cfg, trace, Calling(id, f, args));
  }

  /** A function of two parameters is called with a late and an early value and calls itself with both
      swapped; what uses the second overtakes the late one. */
  lemma SwapBreaksTheOrder(prog: Program, cfg: Config, trace: seq<Event>, a: Value, b: Value, f: nat, id: nat)
    requires Unrestricted(cfg) && cfg.ignoreControl && f in prog.defined && IsLater(prog, cfg, trace, a, b)
    ensures var t := trace + [Calling(id, f, [a, b])] + [Calling(id, f, [Argument(f, 1), Argument(f, 0)])];
      !InOrderWith(prog, cfg, t + [Computing(id, [Argument(f, 1)], 0)], false, |t|, Argument(f, 1))
  {
    var args, swap := [a, b], [Argument(f, 1), Argument(f, 0)];
    var t := trace + [Calling(id, f, args)];
    CallIgnored(cfg, trace, id, f, args);
    CalledCycle(cfg, trace, id, f, args, 1);
    CalledOrigin(prog, cfg, trace, id, f, args, 0);
    SwapMistakes(prog, cfg, t, id, f);
    CallIgnored(cfg, t, id, f, swap);
    Overtakes(prog, cfg, t + [Calling(id, f, swap)], id, Argument(f, 1), 0);
  }

  lemma CallItselfIgnored(cfg: Config, trace: seq<Event>, f: nat, id: nat, ret: nat)
    requires cfg.ignoreControl
    ensures CyclesOf(cfg, CallItself(trace, f, id, ret)) == CyclesOf(cfg, trace)
  {
    var t := trace + [Calling(id, f, [Constant(0)])];
    CallIgnored(cfg, trace, id, f, [Constant(0)]);
    BranchIgnored(Program(0, {}), cfg, t, Other(ret, [], true, 0), Constant(0));
    RunSnoc(cfg, t + [Visit(Other(ret, [], true, 0))], Return(Result(ret), CallResult(id)));
  }

  lemma StepWithoutConstants(cfg: Config, st: State, e: Event)
    ensures Lookup(Step(cfg, st, e).tables.operands, Constant(0)) == Lookup(st.tables.operands, Constant(0))
  {
    if e.Visit? && !e.i.PhiNode? {
      assert EffectOn(cfg, e.i, Operand(Constant(0))) == Kept;
      UsageAfter(cfg, st, e.i, Operand(Constant(0)));
    }
  }

  /** Constants have no cycle. */
  lemma {:induction false} NoConstants(cfg: Config, trace: seq<Event>)
    ensures CycleOf(cfg, trace, Constant(0)) == 0
    decreases |trace|
  {
    if trace != [] {
      NoConstants(cfg, trace[..|trace| - 1]);
      StepWithoutConstants(cfg, Run(cfg, trace[..|trace| - 1]), trace[|trace| - 1]);
    }
  }

  /** A function is called with a late value and calls itself with a constant; what uses its parameter
      behind that call overtakes the late value. */
  lemma RecursionBreaksTheOrder(prog: Program, cfg: Config, trace: seq<Event>, a: Value, b: Value, f: nat, id: nat)
    requires Unrestricted(cfg) && cfg.ignoreControl && f in prog.defined && IsLater(prog, cfg, trace, a, b)
    ensures var t := CallItself(trace + [Calling(id, f, [a])], f, id, id);
      !InOrderWith(prog, cfg, t + [Computing(id, [Argument(f, 0)], 0)], false, |t|, Argument(f, 0))
  {
    var t := trace + [Calling(id, f, [a])];
    CallIgnored(cfg, trace, id, f, [a]);
    CalledOrigin(prog, cfg, trace, id, f, [a], 0);
    RecursionMistakes(prog, cfg, t, f, id, id);
    CallItselfIgnored(cfg, t, f, id, id);
    NoConstants(cfg, t);
    Overtakes(prog, cfg, CallItself(t, f, id, id), id, Argument(f, 0), 0);
  }

  /** A late value that has been handed on with the cycle of an early one. */
  lemma HandedOnOvertakes(prog: Program, cfg: Config, trace: seq<Event>, trace': seq<Event>, a: Value, b: Value, v: Value,
                          delay: nat, id: nat, block: nat)
    requires Unrestricted(cfg) && IsLater(prog, cfg, trace, a, b) && IsMade(v)
    requires CyclesOf(cfg, trace') == CyclesOf(cfg, trace) && CycleOf(cfg, trace', v) <= CycleOf(cfg, trace, b) + delay
    requires Origin(prog, cfg, trace', v) == HandedOn(Origin(prog, cfg, trace, a), delay, false)
    ensures !InOrderWith(prog, cfg, trace' + [Computing(id, [v], block)], false, |trace'|, v)
  {
    Overtakes(prog, cfg, trace', id, v, block);
  }

  lemma TwoIncoming(b: nat, v: Value, b': nat, v': Value)
    requires b != b'
    ensures var incoming := [Incoming(b, v), Incoming(b', v')];
      Chosen(incoming, Some(b)) == Some(v) && Chosen(incoming, Some(b')) == Some(v')
  {
    assert [Incoming(b, v), Incoming(b', v')][1..] == [Incoming(b', v')];
  }

  lemma PhiTakesOrigin(prog: Program, cfg: Config, trace: seq<Event>, p: Instr, w: Value, v: Value)
    requires p.PhiNode? && v != Self(p) && Running(prog, cfg, trace).entry == None
    requires Chosen(p.incoming, Running(prog, cfg, trace).block) == Some(w)
    ensures var m := Origin(prog, cfg, trace, w);
      && (m.Some? ==> Origin(prog, cfg, trace + [Visit(p)], Self(p)) == HandedOn(m, PhiDelay(w), Running(prog, cfg, trace).seen))
      && Origin(prog, cfg, trace + [Visit(p)], v) == Origin(prog, cfg, trace, v)
  {
    ActivationsSnoc(prog, cfg, trace, Visit(p));
  }

  lemma PhiLeavesOrigin(prog: Program, cfg: Config, trace: seq<Event>, q: Instr, v: Value)
    requires q.PhiNode? && v != Self(q)
    ensures Origin(prog, cfg, trace + [Visit(q)], v) == Origin(prog, cfg, trace, v)
  {
    ActivationsSnoc(prog, cfg, trace, Visit(q));
  }

  lemma FirstOrigin(prog: Program, cfg: Config, trace: seq<Event>, p: Instr, q: Instr, a: Value)
    requires p.PhiNode? && q.PhiNode? && p.id != q.id && a.Result? && Origin(prog, cfg, trace, a).Some?
    requires Chosen(p.incoming, Running(prog, cfg, trace).block) == Some(a) && Running(prog, cfg, trace).entry == None
    ensures var m, m' := Origin(prog, cfg, trace, a).value, Origin(prog, cfg, trace + [Visit(p)] + [Visit(q)], Self(p));
      m'.Some? && m'.value.k == m.k && m'.value.lag == m.lag + 1
  {
    PhiTakesOrigin(prog, cfg, trace, p, a, a);
    PhiLeavesOrigin(prog, cfg, trace + [Visit(p)], q, Self(p));
  }

  lemma FirstCycle(cfg: Config, trace: seq<Event>, p: Instr, q: Instr, a: Value, b: Value, from: nat)
    requires p.PhiNode? && q.PhiNode? && p.id != q.id && b.Result? && LastBlock(Scheduled(cfg, trace)) == Some(from)
    requires Chosen(p.incoming, Some(from)) == Some(a) && Chosen(q.incoming, Some(from)) == Some(b)
    ensures var t := trace + [Visit(p)] + [Visit(q)];
      CyclesOf(cfg, t) == CyclesOf(cfg, trace) && CycleOf(cfg, t, Self(q)) == CycleOf(cfg, trace, b) + 1
  {
    PhiStep(cfg, trace, p, a, b);
    PhiStep(cfg, trace + [Visit(p)], q, b, Self(q));
  }

  /** Two phis of a loop begin with a late and an early value and then take each other's; what uses the
      second behind that turn overtakes the late value. */
  lemma PhiSwapBreaksTheOrder(prog: Program, cfg: Config, trace: seq<Event>, a: Value, b: Value, id: nat, from: nat, loop: nat)
    requires Unrestricted(cfg) && IsLater(prog, cfg, trace, a, b) && from != loop
    requires LastBlock(Scheduled(cfg, trace)) == Some(from) == Running(prog, cfg, trace).block
    requires Running(prog, cfg, trace).entry == None
    ensures var p := PhiNode(id, [Incoming(from, a), Incoming(loop, Phi(id + 1))], loop);
      var q := PhiNode(id + 1, [Incoming(from, b), Incoming(loop, Phi(id))], loop);
      var t := trace + [Visit(p)] + [Visit(q)] + [Computing(id, [], loop)] + [Visit(p)] + [Visit(q)];
      !InOrderWith(prog, cfg, t + [Computing(id, [Phi(id + 1)], loop)], false, |t|, Phi(id + 1))
  {
    var p := PhiNode(id, [Incoming(from, a), Incoming(loop, Phi(id + 1))], loop);
    var q := PhiNode(id + 1, [Incoming(from, b), Incoming(loop, Phi(id))], loop);
    var t := trace + [Visit(p)] + [Visit(q)];
    var t' := t + [Computing(id, [], loop)];
    TwoIncoming(from, a, loop, Phi(id + 1));
    TwoIncoming(from, b, loop, Phi(id));
    FirstOrigin(prog, cfg, trace, p, q, a);
    FirstCycle(cfg, trace, p, q, a, b, from);
    Computed(cfg, t, id, [], loop, Phi(id + 1));
    ComputedOrigin(prog, cfg, t, id, [], loop, Phi(id));
    PhiSwapMistakes(prog, cfg, t', p, q, loop);
    Overtakes(prog, cfg, t' + [Visit(p)] + [Visit(q)], id, Phi(id + 1), loop);
  }

  /** With control ignored, a block that only branches on lies before a phi; what uses the phi overtakes
      the late value that belongs to that block. */
  lemma LoneBranchBreaksTheOrder(prog: Program, cfg: Config, trace: seq<Event>, branch: Instr, p: Instr, a: Value, b: Value,
                                 from: nat, id: nat)
    requires Unrestricted(cfg) && cfg.ignoreControl && IsLater(prog, cfg, trace, a, b)
    requires LastBlock(Scheduled(cfg, trace)) == Some(from) == Running(prog, cfg, trace).block
    requires branch.Other? && branch.control && branch.parent != from && a != Self(branch) && b != Self(branch)
    requires p.PhiNode? && p.incoming == [Incoming(from, b), Incoming(branch.parent, a)]
    ensures var t := trace + [Visit(branch)] + [Visit(p)];
      !InOrderWith(prog, cfg, t + [Computing(id, [Self(p)], p.parent)], false, |t|, Self(p))
  {
    TwoIncoming(from, b, branch.parent, a);
    LoneBranchMistakes(prog, cfg, trace, branch, p, from, b, a);
    HandedOnOvertakes(prog, cfg, trace, trace + [Visit(branch)] + [Visit(p)], a, b, Self(p), 1, id, p.parent);
  }
}
