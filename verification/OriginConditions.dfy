/** When the tables of the scheduler keep the values of a program: exactly when for one call, for the
    phis of one block, for the block before it and across the run of a called function; and for whole
    runs. */
module OriginConditions {
  import opened Basics
  import opened IssueWindow
  import opened IlpSchedule
  import opened IlpRuns
  import opened DataFlow
  import opened Origins

  /** The function of every instruction. */
  type Home = nat -> nat

  /** The function a value belongs to. */
  function FunctionOf(home: Home, v: Value): Option<nat> {
    match v
    case Constant(_) => None
    case Label(_) => None
    case Argument(f, _) => Some(f)
    case _ => Some(home(v.id))
  }

  // ----- Whole runs ------------------------------------------------------------------------

  /** The functions that are active behind a trace, the running one last. */
  function Active(prog: Program, trace: seq<Event>): (r: seq<nat>)
    ensures r != []
  {
    if trace == [] then [prog.main]
    else
      var fs, e := Active(prog, trace[..|trace| - 1]), trace[|trace| - 1];
      match e
      case Return(_, _) => if |fs| == 1 then fs else fs[..|fs| - 1]
      case Visit(i) => if IsEntered(prog, i) then fs + [i.callee.value.f] else fs
  }

  ghost predicate Belongs(home: Home, f: nat, v: Value) {
    FunctionOf(home, v) == None || FunctionOf(home, v) == Some(f)
  }

  /** An activation executes instructions of its function, which use values of that function; a return
      gives its value to a call of the function below. */
  ghost predicate IsOfItsFunction(home: Home, fs: seq<nat>, e: Event)
    requires fs != []
  {
    match e
    case Visit(i) =>
      home(i.id) == fs[|fs| - 1] && forall k :: 0 <= k < |Operands(i)| ==> Belongs(home, fs[|fs| - 1], Operands(i)[k])
    case Return(_, call) => |fs| > 1 && IsMade(call) ==> FunctionOf(home, call) == Some(fs[|fs| - 2])
  }

  /** No function is entered while it is active. */
  predicate EntersAnew(prog: Program, fs: seq<nat>, e: Event) {
    e.Visit? && IsEntered(prog, e.i) ==> e.i.callee.value.f !in fs
  }

  /** The last scheduled instruction before the phis is one of the block that control comes from, and
      the phi does not choose a phi before it that has taken another value. */
  predicate PhiKeepsOwn(a: Activation, e: Event) {
    e.Visit? && e.i.PhiNode? ==>
      var chosen := Chosen(e.i.incoming, Enter(a).from);
      Enter(a).known && (chosen.Some? ==> chosen.value !in Enter(a).changed)
  }

  /** If control is scheduled, the terminator of a block makes it known. */
  lemma ControlIsSeen(prog: Program, cfg: Config, trace: seq<Event>, i: Instr)
    requires !cfg.ignoreControl && !i.PhiNode? && !IsEntered(prog, i)
    ensures var a := Running(prog, cfg, trace + [Visit(i)]); Enter(a).known && Enter(a).from == Some(i.parent)
  {
    assert (trace + [Visit(i)])[..|trace|] == trace;
  }

  ghost predicate KeepsAll(prog: Program, home: Home, cfg: Config, rest: seq<Event>, e: Event) {
    var fs := Active(prog, rest);
    IsOfItsFunction(home, fs, e) && EntersAnew(prog, fs, e) && PhiKeepsOwn(Running(prog, cfg, rest), e)
  }

  ghost predicate RunKeepsAll(prog: Program, home: Home, cfg: Config, trace: seq<Event>) {
    prog.main in prog.defined && forall t :: 0 <= t < |trace| ==> KeepsAll(prog, home, cfg, trace[..t], trace[t])
  }

  ghost predicate AllKept(values: Values) {
    forall v :: v in values ==> values[v].kept
  }

  ghost predicate AllOf(home: Home, f: nat, values: Values) {
    forall v :: v in values ==> FunctionOf(home, v) == Some(f)
  }

  /** Every activation has kept all values, which are of its own function. */
  ghost predicate Whole(prog: Program, home: Home, fs: seq<nat>, stack: seq<Activation>) {
    && |fs| == |stack| > 0
    && (forall p, q :: 0 <= p < q < |fs| ==> fs[p] != fs[q])
    && (forall p :: 0 <= p < |fs| ==> fs[p] in prog.defined && AllKept(stack[p].values) && AllOf(home, fs[p], stack[p].values))
    && (stack[|stack| - 1].entry.Some? ==> AllKept(stack[|stack| - 1].entry.value.values))
  }

  lemma NothingLost(home: Home, f: nat, values: Values, i: Instr)
    requires AllKept(values) && AllOf(home, f, values)
    requires home(i.id) != f && (i.Call? && i.callee.Some? ==> i.callee.value.f != f)
    ensures AllKept(Without(values, i)) && AllOf(home, f, Without(values, i))
  {
  }

  lemma {:induction false} PassesKept(home: Home, f: nat, callee: Callee, args: seq<Value>, values: Values, n: nat)
    requires n <= |args| && AllKept(values) && callee.f != f && forall k :: 0 <= k < |args| ==> Belongs(home, f, args[k])
    ensures AllKept(Passes(callee, args, values, n)) && AllOf(home, callee.f, Passes(callee, args, values, n))
    decreases n
  {
    if n > 0 {
      PassesKept(home, f, callee, args, values, n - 1);
      assert Belongs(home, f, args[n - 1]) && KeepsOwn(callee, args, n - 1);
    }
  }

  lemma PhiWhole(home: Home, f: nat, a: Activation, i: Instr)
    requires i.PhiNode? && home(i.id) == f && AllKept(a.values) && AllOf(home, f, a.values)
    requires (a.entry.Some? ==> AllKept(a.entry.value.values)) && PhiKeepsOwn(a, Visit(i))
    ensures var a' := AtPhi(a, i); AllKept(a'.values) && AllOf(home, f, a'.values) && AllKept(a'.entry.value.values)
  {
  }

  lemma InstrWhole(prog: Program, home: Home, f: nat, cfg: Config, a: Activation, i: Instr, n: nat)
    requires !i.PhiNode? && home(i.id) == f && AllKept(a.values) && AllOf(home, f, a.values)
    requires i.Call? && i.callee.Some? ==> i.callee.value.f != f
    ensures var a' := AtInstr(prog, cfg, a, i, n); AllKept(a'.values) && AllOf(home, f, a'.values)
  {
  }

  lemma VisitWhole(prog: Program, home: Home, cfg: Config, fs: seq<nat>, stack: seq<Activation>, e: Event, n: nat)
    requires Whole(prog, home, fs, stack) && e.Visit? && IsOfItsFunction(home, fs, e) && EntersAnew(prog, fs, e)
    requires PhiKeepsOwn(stack[|stack| - 1], e)
    ensures Whole(prog, home, if IsEntered(prog, e.i) then fs + [e.i.callee.value.f] else fs, Proceed(prog, cfg, stack, e, n))
  {
    var outer, top, f := stack[..|stack| - 1], stack[|stack| - 1], fs[|fs| - 1];
    assert e.i.Call? && e.i.callee.Some? ==> e.i.callee.value.f !in fs;
    forall p | 0 <= p < |outer|
      ensures AllKept(AllWithout(outer, e.i)[p].values) && AllOf(home, fs[p], AllWithout(outer, e.i)[p].values)
    {
      NothingLost(home, fs[p], outer[p].values, e.i);
    }
    if e.i.PhiNode? {
      PhiWhole(home, f, top, e.i);
    } else {
      InstrWhole(prog, home, f, cfg, top, e.i, n);
      if IsEntered(prog, e.i) {
        assert Operands(e.i) == e.i.args;
        PassesKept(home, f, e.i.callee.value, e.i.args, top.values, |e.i.args|);
      }
    }
  }

  lemma ReturnWhole(prog: Program, home: Home, cfg: Config, fs: seq<nat>, stack: seq<Activation>, e: Event, n: nat)
    requires Whole(prog, home, fs, stack) && e.Return? && IsOfItsFunction(home, fs, e)
    ensures Whole(prog, home, if |fs| == 1 then fs else fs[..|fs| - 1], Proceed(prog, cfg, stack, e, n))
  {
    if |fs| > 1 {
      var m := Get(stack[|stack| - 1].values, e.result);
      assert AllKept(stack[|stack| - 1].values) && AllKept(stack[|stack| - 2].values);
      ResumeWhole(home, fs[|fs| - 2], stack[|stack| - 2], e.call, m);
    }
  }

  lemma ResumeWhole(home: Home, f: nat, a: Activation, call: Value, m: Option<Made>)
    requires AllKept(a.values) && AllOf(home, f, a.values) && (m.Some? ==> m.value.kept)
    requires IsMade(call) ==> FunctionOf(home, call) == Some(f)
    ensures AllKept(Resume(a, call, m).values) && AllOf(home, f, Resume(a, call, m).values)
  {
  }

  /** If no function is entered while it is active, every block before is known, and no phi chooses one
      that has changed, the tables keep all values. */
  lemma {:induction false} RunsStayWhole(prog: Program, home: Home, cfg: Config, trace: seq<Event>)
    requires RunKeepsAll(prog, home, cfg, trace)
    ensures Whole(prog, home, Active(prog, trace), Activations(prog, cfg, trace))
    decreases |trace|
  {
    if trace != [] {
      var rest, e := trace[..|trace| - 1], trace[|trace| - 1];
      RunBefore(prog, home, cfg, trace);
      RunsStayWhole(prog, home, cfg, rest);
      if e.Visit? {
        VisitWhole(prog, home, cfg, Active(prog, rest), Activations(prog, cfg, rest), e, |Scheduled(cfg, rest)|);
      } else {
        ReturnWhole(prog, home, cfg, Active(prog, rest), Activations(prog, cfg, rest), e, |Scheduled(cfg, rest)|);
      }
    }
  }

  lemma RunBefore(prog: Program, home: Home, cfg: Config, trace: seq<Event>)
    requires RunKeepsAll(prog, home, cfg, trace) && trace != []
    ensures RunKeepsAll(prog, home, cfg, trace[..|trace| - 1])
    ensures KeepsAll(prog, home, cfg, trace[..|trace| - 1], trace[|trace| - 1])
  {
    var rest := trace[..|trace| - 1];
    forall t | 0 <= t < |rest| ensures KeepsAll(prog, home, cfg, rest[..t], rest[t]) {
      assert rest[..t] == trace[..t];
    }
  }

  /** In both schedules of every such run, whatever the window and the options, every instruction issues
      behind the instructions that made its operands. */
  lemma OperandsKeepTheirOrder(prog: Program, home: Home, cfg: Config, trace: seq<Event>, io: bool, t: nat, v: Value)
    requires t < |trace| && RunKeepsAll(prog, home, cfg, trace[..t]) && KeepsAll(prog, home, cfg, trace[..t], trace[t])
    requires trace[t].Visit? && !IsIgnored(cfg, trace[t].i) && v in Operands(trace[t].i) && IsMade(v)
    ensures InOrderWith(prog, cfg, trace, io, t, v)
  {
    RunsStayWhole(prog, home, cfg, trace[..t]);
    OwnArguments(prog, home, Active(prog, trace[..t]), trace[t]);
    KeptOperandsKeepTheirOrder(prog, cfg, trace, io, t, v);
  }

  /** A call that enters no active function passes its own arguments. */
  lemma OwnArguments(prog: Program, home: Home, fs: seq<nat>, e: Event)
    requires fs != [] && e.Visit? && IsOfItsFunction(home, fs, e) && EntersAnew(prog, fs, e)
    requires forall p :: 0 <= p < |fs| ==> fs[p] in prog.defined
    ensures CallKeepsOwn(e.i)
  {
    if e.i.Call? && e.i.callee.Some? {
      forall k | 0 <= k < |e.i.args| ensures KeepsOwn(e.i.callee.value, e.i.args, k) {
        assert Belongs(home, fs[|fs| - 1], Operands(e.i)[k]);
      }
    }
  }

  // ----- The phis of one block -------------------------------------------------------------

  function Steps(cfg: Config, st: State, body: seq<Event>): State {
    if body == [] then st else Step(cfg, Steps(cfg, st, body[..|body| - 1]), body[|body| - 1])
  }

  /** The phis at the head of a block, which is entered from the block `from`. */
  ghost predicate ArePhis(phis: seq<Instr>, from: Option<nat>) {
    && (forall i :: 0 <= i < |phis| ==> phis[i].PhiNode? && Chosen(phis[i].incoming, from).Some?)
    && forall i, k :: 0 <= k < i < |phis| ==> phis[k].id != phis[i].id
  }

  function ChosenAt(phis: seq<Instr>, from: Option<nat>, i: nat): Value
    requires i < |phis| && phis[i].PhiNode? && Chosen(phis[i].incoming, from).Some?
  {
    Chosen(phis[i].incoming, from).value
  }

  /** The scheduler behind the first `n` phis, which it visits one after the other. */
  function BehindPhis(st: State, phis: seq<Instr>, n: nat): State
    requires n <= |phis| && forall i :: 0 <= i < |phis| ==> phis[i].PhiNode?
  {
    if n == 0 then st else AfterPhi(BehindPhis(st, phis, n - 1), phis[n - 1])
  }

  /** The `i`-th phi looks up the cycle that its operand had before the block. */
  ghost predicate LooksUpOwn(st: State, phis: seq<Instr>, from: Option<nat>, i: nat)
    requires ArePhis(phis, from) && i < |phis|
  {
    var v := ChosenAt(phis, from, i);
    Lookup(BehindPhis(st, phis, i).tables.operands, v) == Lookup(st.tables.operands, v)
  }

  /** Its operand is no phi before it that has taken another value. */
  ghost predicate ChoosesOwn(phis: seq<Instr>, from: Option<nat>, i: nat)
    requires ArePhis(phis, from) && i < |phis|
  {
    forall k :: 0 <= k < i && ChosenAt(phis, from, i) == Self(phis[k]) ==> ChosenAt(phis, from, k) == Self(phis[k])
  }

  lemma {:induction false} PhisIssueNothing(st: State, phis: seq<Instr>, n: nat)
    requires n <= |phis| && forall i :: 0 <= i < |phis| ==> phis[i].PhiNode?
    ensures BehindPhis(st, phis, n).issued == st.issued
    decreases n
  {
    if n > 0 { PhisIssueNothing(st, phis, n - 1); }
  }

  lemma PhiGives(st: State, phi: Instr, w: Value, v: Value)
    requires phi.PhiNode? && Chosen(phi.incoming, LastBlock(Instrs(st.issued))) == Some(w)
    ensures var before, after := st.tables.operands, AfterPhi(st, phi).tables.operands;
      && (v != Self(phi) ==> Lookup(after, v) == Lookup(before, v))
      && Lookup(after, Self(phi)).value1 == Lookup(before, w).value1 + PhiDelay(w)
      && (w == Self(phi) ==> Lookup(after, w) == Lookup(before, w))
  {
  }

  /** A value that no phi or only itself has been given is unchanged. */
  lemma {:induction false} UnchangedBehind(st: State, phis: seq<Instr>, from: Option<nat>, n: nat, v: Value)
    requires ArePhis(phis, from) && n <= |phis| && LastBlock(Instrs(st.issued)) == from
    requires forall k :: 0 <= k < n && v == Self(phis[k]) ==> ChosenAt(phis, from, k) == v
    ensures Lookup(BehindPhis(st, phis, n).tables.operands, v) == Lookup(st.tables.operands, v)
    decreases n
  {
    if n > 0 {
      UnchangedBehind(st, phis, from, n - 1, v);
      PhisIssueNothing(st, phis, n - 1);
      PhiGives(BehindPhis(st, phis, n - 1), phis[n - 1], ChosenAt(phis, from, n - 1), v);
    }
  }

  lemma {:induction false} FirstChanged(phis: seq<Instr>, from: Option<nat>, n: nat) returns (i: nat)
    requires ArePhis(phis, from) && n <= |phis| && exists i :: 0 <= i < n && !ChoosesOwn(phis, from, i)
    ensures i < n && !ChoosesOwn(phis, from, i) && forall k :: 0 <= k < i ==> ChoosesOwn(phis, from, k)
    decreases n
  {
    if exists i :: 0 <= i < n - 1 && !ChoosesOwn(phis, from, i) {
      i := FirstChanged(phis, from, n - 1);
    } else {
      i := n - 1;
    }
  }

  /** A state of the scheduler that has come from the block `from`, with one value in the tables. */
  function Having(v: Value, from: Option<nat>): State {
    State(Tables(map[v := Cycles(2, 2)], map[]),
          if from.None? then [] else [Issued(Other(0, [], false, from.value), NEVER)], 0)
  }

  lemma HavingComesFrom(v: Value, from: Option<nat>)
    ensures LastBlock(Instrs(Having(v, from).issued)) == from
  {
  }

  lemma Changes(phis: seq<Instr>, from: Option<nat>, k: nat)
    requires ArePhis(phis, from) && k < |phis| && ChosenAt(phis, from, k) != Self(phis[k]) && ChoosesOwn(phis, from, k)
    ensures Lookup(BehindPhis(Having(Self(phis[k]), from), phis, k + 1).tables.operands, Self(phis[k])).value1 <= 1
  {
    var v, w := Self(phis[k]), ChosenAt(phis, from, k);
    var st := Having(v, from);
    HavingComesFrom(v, from);
    PhisIssueNothing(st, phis, k);
    UnchangedBehind(st, phis, from, k, w);
    PhiGives(BehindPhis(st, phis, k), phis[k], w, v);
  }

  /** A phi that has taken another value has another cycle from then on. */
  lemma {:induction false} ChangedStays(phis: seq<Instr>, from: Option<nat>, k: nat, n: nat)
    requires ArePhis(phis, from) && k < n <= |phis| && ChosenAt(phis, from, k) != Self(phis[k]) && ChoosesOwn(phis, from, k)
    ensures Lookup(BehindPhis(Having(Self(phis[k]), from), phis, n).tables.operands, Self(phis[k])).value1 <= 1
    decreases n
  {
    if n == k + 1 {
      Changes(phis, from, k);
    } else {
      var v := Self(phis[k]);
      var st := Having(v, from);
      ChangedStays(phis, from, k, n - 1);
      HavingComesFrom(v, from);
      PhisIssueNothing(st, phis, n - 1);
      PhiGives(BehindPhis(st, phis, n - 1), phis[n - 1], ChosenAt(phis, from, n - 1), v);
    }
  }

  ghost predicate AllLookUpOwn(phis: seq<Instr>, from: Option<nat>)
    requires ArePhis(phis, from)
  {
    forall st: State, i: nat :: LastBlock(Instrs(st.issued)) == from && 0 <= i < |phis| ==> LooksUpOwn(st, phis, from, i)
  }

  /** Every phi of a block gets its own operand's cycle, whatever the tables hold, if and only if no
      operand is a phi visited before that has taken another value. */
  lemma PhisKeepOwnIff(phis: seq<Instr>, from: Option<nat>)
    requires ArePhis(phis, from)
    ensures AllLookUpOwn(phis, from) <==> forall i :: 0 <= i < |phis| ==> ChoosesOwn(phis, from, i)
  {
    if forall i :: 0 <= i < |phis| ==> ChoosesOwn(phis, from, i) {
      forall st: State, i: nat | LastBlock(Instrs(st.issued)) == from && 0 <= i < |phis| ensures LooksUpOwn(st, phis, from, i) {
        assert ChoosesOwn(phis, from, i);
        UnchangedBehind(st, phis, from, i, ChosenAt(phis, from, i));
      }
    } else {
      var i := FirstChanged(phis, from, |phis|);
      var k :| 0 <= k < i && ChosenAt(phis, from, i) == Self(phis[k]) && ChosenAt(phis, from, k) != Self(phis[k]);
      ChangedStays(phis, from, k, i);
      HavingComesFrom(Self(phis[k]), from);
      assert !LooksUpOwn(Having(Self(phis[k]), from), phis, from, i);
    }
  }

  // ----- The block before ------------------------------------------------------------------

  lemma {:induction false} BlockOfLast(cfg: Config, st: State, body: seq<Event>, b: nat)
    requires forall k :: 0 <= k < |body| ==> body[k].Visit? && body[k].i.parent == b
    ensures if exists k :: 0 <= k < |body| && !IsIgnored(cfg, body[k].i) then LastBlock(Instrs(Steps(cfg, st, body).issued)) == Some(b)
            else Steps(cfg, st, body).issued == st.issued
    decreases |body|
  {
    if body != [] {
      var front, last := body[..|body| - 1], body[|body| - 1];
      BlockOfLast(cfg, st, front, b);
      StepIssues(cfg, Steps(cfg, st, front), last);
      assert forall k :: 0 <= k < |front| ==> front[k] == body[k];
    }
  }

  ghost predicate KnowsBlock(cfg: Config, body: seq<Event>, b: nat) {
    forall st :: LastBlock(Instrs(Steps(cfg, st, body).issued)) == Some(b)
  }

  /** Behind the instructions of a block, or those behind its last call, the phis of the next block see
      that it was before, whatever was before it, if and only if control is scheduled or some other
      instruction of them is. */
  lemma PreviousBlockIff(cfg: Config, body: seq<Event>, b: nat)
    requires body != [] && forall k :: 0 <= k < |body| ==> body[k].Visit? && body[k].i.parent == b
    requires body[|body| - 1].i.Other? && body[|body| - 1].i.control
    ensures KnowsBlock(cfg, body, b)
       <==> !cfg.ignoreControl || exists k :: 0 <= k < |body| && !IsIgnored(cfg, body[k].i)
  {
    if !cfg.ignoreControl { assert !IsIgnored(cfg, body[|body| - 1].i); }
    forall st ensures (exists k :: 0 <= k < |body| && !IsIgnored(cfg, body[k].i))
                      ==> LastBlock(Instrs(Steps(cfg, st, body).issued)) == Some(b)
    {
      BlockOfLast(cfg, st, body, b);
    }
    if forall k :: 0 <= k < |body| ==> IsIgnored(cfg, body[k].i) {
      var st := Having(Phi(0), None);
      BlockOfLast(cfg, st, body, b);
      assert LastBlock(Instrs(Steps(cfg, st, body).issued)) == None;
    }
  }

  // ----- Across a call ---------------------------------------------------------------------

  /** What happens while only the functions `fs` run. */
  ghost predicate StaysIn(home: Home, fs: set<nat>, e: Event) {
    match e
    case Visit(i) =>
      && home(i.id) in fs && (i.Call? && i.callee.Some? ==> i.callee.value.f in fs)
      && (i.Store? && IsMade(i.pointer) ==> FunctionOf(home, i.pointer).value in fs)
    case Return(_, call) => IsMade(call) ==> FunctionOf(home, call).value in fs
  }

  ghost predicate Keeps(cfg: Config, st: State, body: seq<Event>, v: Value) {
    Lookup(Steps(cfg, st, body).tables.operands, v) == Lookup(st.tables.operands, v)
  }

  ghost predicate KeepsAcross(home: Home, fs: set<nat>, v: Value) {
    forall cfg, st, body :: (forall k :: 0 <= k < |body| ==> StaysIn(home, fs, body[k])) ==> Keeps(cfg, st, body, v)
  }

  lemma NoEffect(home: Home, fs: set<nat>, cfg: Config, i: Instr, v: Value)
    requires StaysIn(home, fs, Visit(i)) && !i.PhiNode? && IsMade(v) && FunctionOf(home, v).value !in fs
    ensures EffectOn(cfg, i, Operand(v)) == Kept
  {
    assert v != Self(i);
  }

  lemma StepKeeps(home: Home, fs: set<nat>, cfg: Config, st: State, e: Event, v: Value)
    requires StaysIn(home, fs, e) && IsMade(v) && FunctionOf(home, v).value !in fs
    ensures Lookup(Step(cfg, st, e).tables.operands, v) == Lookup(st.tables.operands, v)
  {
    match e
    case Return(_, call) => assert v != call;
    case Visit(i) =>
      if i.PhiNode? {
        assert v != Self(i);
      } else {
        NoEffect(home, fs, cfg, i, v);
        VisitKeeps(cfg, st, i, v);
      }
  }

  lemma VisitKeeps(cfg: Config, st: State, i: Instr, v: Value)
    requires !i.PhiNode? && EffectOn(cfg, i, Operand(v)) == Kept
    ensures Lookup(AfterVisit(cfg, st, i).tables.operands, v) == Lookup(st.tables.operands, v)
  {
    UsageAfter(cfg, st, i, Operand(v));
  }

  lemma {:induction false} StepsKeep(home: Home, fs: set<nat>, cfg: Config, st: State, body: seq<Event>, v: Value)
    requires (forall k :: 0 <= k < |body| ==> StaysIn(home, fs, body[k])) && IsMade(v) && FunctionOf(home, v).value !in fs
    ensures Keeps(cfg, st, body, v)
    decreases |body|
  {
    if body != [] {
      StepsKeep(home, fs, cfg, st, body[..|body| - 1], v);
      StepKeeps(home, fs, cfg, Steps(cfg, st, body[..|body| - 1]), body[|body| - 1], v);
    }
  }

  function Constants(n: nat): seq<Value> {
    seq(n, _ => Constant(0))
  }

  /** An event of its function that overwrites a value. */
  function Overwriting(v: Value, f: nat, id: nat): Event
    requires IsMade(v)
  {
    match v
    case Phi(p) => Visit(PhiNode(p, [Incoming(0, Constant(0))], 0))
    case CallResult(c) => Visit(Call(c, Some(Callee(f, 0)), [], 0))
    case Argument(_, j) => Visit(Call(id, Some(Callee(f, j + 1)), Constants(j + 1), 0))
    case Result(r) => Visit(Other(r, [], false, 0))
  }

  lemma OverwritingLoses(v: Value, f: nat, id: nat)
    requires IsMade(v) && (v.Argument? ==> v.f == f)
    ensures !Keeps(Config(0, false, false), Having(v, Some(0)), [Overwriting(v, f, id)], v)
  {
    var cfg, st, e := Config(0, false, false), Having(v, Some(0)), Overwriting(v, f, id);
    assert [e][..0] == [] && Steps(cfg, st, [e]) == Step(cfg, st, e);
    if v.Phi? {
    } else {
      UsageAfter(cfg, st, e.i, Operand(v));
      if v.Argument? {
        assert KeepsOwn(e.i.callee.value, e.i.args, v.j);
        KeptIsPassed(e.i.callee.value, e.i.args, v.j);
      }
    }
  }

  /** A value of a function with an instruction `id` keeps its cycle, whatever the functions `fs` do, if
      and only if its function is not one of them. */
  lemma KeptAcrossIff(home: Home, fs: set<nat>, v: Value, id: nat)
    requires IsMade(v) && FunctionOf(home, v) == Some(home(id))
    ensures KeepsAcross(home, fs, v) <==> home(id) !in fs
  {
    if home(id) !in fs {
      forall cfg, st, body | forall k :: 0 <= k < |body| ==> StaysIn(home, fs, body[k]) ensures Keeps(cfg, st, body, v) {
        StepsKeep(home, fs, cfg, st, body, v);
      }
    } else {
      OverwritingLoses(v, home(id), id);
      var body := [Overwriting(v, home(id), id)];
      assert forall k :: 0 <= k < |body| ==> StaysIn(home, fs, body[k]);
    }
  }
}
