/** Where the values of a program come from. The program itself is followed here, not the tables of the
    scheduler: every activation of a function has its own values, the phis at the head of a block are
    evaluated at once, and they see the block that control really came from. What is found is compared
    with what the tables lead to. */
module Origins {
  import opened Basics
  import opened IssueWindow
  import opened IlpSchedule
  import opened IlpRuns
  import opened DataFlow

  /** A run begins in `main`; calls of the `defined` functions are followed. */
  datatype Program = Program(main: nat, defined: set<nat>)

  /** The `k`-th scheduled instruction made a value, which has passed `lag` cycles on its way. It is
      `kept` as long as nothing has happened that makes the tables lose it. */
  datatype Made = Made(k: nat, lag: nat, kept: bool)

  type Values = map<Value, Made>

  /** The phis at the head of a block: the values and the block before them, whether the tables know
      that block, and which of them have changed so far. */
  datatype Entry = Entry(values: Values, changed: set<Value>, from: Option<nat>, known: bool)

  /** One activation of a function: its values, the block of its last instruction, whether the last
      scheduled instruction of the run is one of that block, and the phis it is in. */
  datatype Activation = Activation(values: Values, block: Option<nat>, seen: bool, entry: Option<Entry>)

  /** Values that instructions and calls make. */
  predicate IsMade(v: Value) {
    !v.Constant? && !v.Label?
  }

  function Get(values: Values, v: Value): Option<Made> {
    if v in values then Some(values[v]) else None
  }

  function Set(values: Values, v: Value, m: Option<Made>): Values {
    if m.Some? then values[v := m.value] else values - {v}
  }

  /** A value handed on behind `delay` cycles, if the tables get it right. */
  function HandedOn(m: Option<Made>, delay: nat, right: bool): Option<Made> {
    if m.Some? then Some(Made(m.value.k, m.value.lag + delay, m.value.kept && right)) else None
  }

  predicate IsParameter(i: Instr, v: Value) {
    i.Call? && i.callee.Some? && IsBound(i.callee.value, |i.args|, v)
  }

  predicate IsEntered(prog: Program, i: Instr) {
    i.Call? && i.callee.Some? && i.callee.value.f in prog.defined
  }

  /** The entry of a value in the tables is given to an instruction of another activation. */
  function Without(values: Values, i: Instr): Values {
    map v | v in values :: if v == Self(i) || IsParameter(i, v) then values[v].(kept := false) else values[v]
  }

  function AllWithout(stack: seq<Activation>, i: Instr): seq<Activation> {
    seq(|stack|, p requires 0 <= p < |stack| => stack[p].(values := Without(stack[p].values, i)))
  }

  function Enter(a: Activation): Entry {
    if a.entry.Some? then a.entry.value else Entry(a.values, {}, a.block, a.seen)
  }

  /** A phi takes the value its operand had before the block. */
  function AtPhi(a: Activation, i: Instr): Activation
    requires i.PhiNode?
  {
    var en := Enter(a);
    var chosen := Chosen(i.incoming, en.from);
    var made :=
      if chosen.None? then None
      else HandedOn(Get(en.values, chosen.value), PhiDelay(chosen.value), en.known && chosen.value !in en.changed);
    var changed := if en.known && chosen == Some(Self(i)) then en.changed else en.changed + {Self(i)};
    Activation(Set(a.values, Self(i), made), Some(i.parent), false, Some(en.(changed := changed)))
  }

  /** What the value of an instruction other than a phi is: a terminator hands its operand on, as a
      return does; the value of a call comes from the function called; otherwise the instruction, which
      is the `n`-th if it is scheduled, makes the value. */
  function MadeBy(prog: Program, cfg: Config, values: Values, i: Instr, n: nat): Option<Made>
    requires !i.PhiNode?
  {
    if i.Other? && i.control then
      if i.operands == [] then None
      else HandedOn(Get(values, i.operands[0]), if ConstantLike(i.operands[0]) then 0 else 1, true)
    else if IsEntered(prog, i) || IsIgnored(cfg, i) then None
    else Some(Made(n, 0, true))
  }

  function AtInstr(prog: Program, cfg: Config, a: Activation, i: Instr, n: nat): Activation
    requires !i.PhiNode?
  {
    var values := Set(Without(a.values, i), Self(i), MadeBy(prog, cfg, a.values, i, n));
    Activation(values, Some(i.parent), !IsIgnored(cfg, i) || (a.seen && a.block == Some(i.parent)), None)
  }

  /** All parameters take over the values of their arguments at once. */
  function Passes(callee: Callee, args: seq<Value>, values: Values, n: nat): Values
    requires n <= |args|
  {
    if n == 0 then map[]
    else if n - 1 < callee.params then
      Set(Passes(callee, args, values, n - 1), Argument(callee.f, n - 1),
          HandedOn(Get(values, args[n - 1]), 0, KeepsOwn(callee, args, n - 1)))
    else Passes(callee, args, values, n - 1)
  }

  function Entered(prog: Program, a: Activation, i: Instr): seq<Activation> {
    if IsEntered(prog, i) then [Activation(Passes(i.callee.value, i.args, a.values, |i.args|), None, false, None)] else []
  }

  /** Control comes back to an activation, with the value of the call. */
  function Resume(a: Activation, call: Value, m: Option<Made>): Activation {
    Activation(if IsMade(call) then Set(a.values, call, m) else a.values, a.block, false, None)
  }

  function Proceed(prog: Program, cfg: Config, stack: seq<Activation>, e: Event, n: nat): (r: seq<Activation>)
    requires stack != []
    ensures r != []
  {
    var outer, top := stack[..|stack| - 1], stack[|stack| - 1];
    match e
    case Return(result, call) =>
      if outer == [] then stack
      else outer[..|outer| - 1] + [Resume(outer[|outer| - 1], call, Get(top.values, result))]
    case Visit(i) =>
      if i.PhiNode? then AllWithout(outer, i) + [AtPhi(top, i)]
      else AllWithout(outer, i) + [AtInstr(prog, cfg, top, i, n)] + Entered(prog, top, i)
  }

  /** The activations behind a trace, the running one last. */
  function Activations(prog: Program, cfg: Config, trace: seq<Event>): (r: seq<Activation>)
    ensures r != []
  {
    if trace == [] then [Activation(map[], None, false, None)]
    else
      var rest := trace[..|trace| - 1];
      Proceed(prog, cfg, Activations(prog, cfg, rest), trace[|trace| - 1], |Scheduled(cfg, rest)|)
  }

  function Running(prog: Program, cfg: Config, trace: seq<Event>): Activation {
    var stack := Activations(prog, cfg, trace);
    stack[|stack| - 1]
  }

  /** The origin of the value `v` has behind `trace`. */
  function Origin(prog: Program, cfg: Config, trace: seq<Event>, v: Value): Option<Made> {
    Get(Running(prog, cfg, trace).values, v)
  }

  // ----- What the graph covers -------------------------------------------------------------

  ghost predicate MeetsSoFar(g: seq<seq<Term>>, c: seq<nat>) {
    |g| <= |c| && forall k :: 0 <= k < |g| ==> c[k] >= Latest(c, g[k])
  }

  /** A term of what an instruction waits for. */
  lemma {:induction false} NeedBounds(cfg: Config, io: bool, trace: seq<Event>, needs: seq<Need>, need: Need, c: seq<nat>)
    requires need in needs && Terms(cfg, io, trace, need.source) != []
    ensures Latest(c, NeedTerms(cfg, io, trace, needs)) >= Latest(c, Terms(cfg, io, trace, need.source)) + need.delay
    decreases |needs|
  {
    var front, last := needs[..|needs| - 1], needs[|needs| - 1];
    LatestConcat(c, NeedTerms(cfg, io, trace, front), Delayed(Terms(cfg, io, trace, last.source), last.delay));
    if last == need {
      LatestDelayed(c, Terms(cfg, io, trace, last.source), last.delay);
    } else {
      NeedBounds(cfg, io, trace, front, need, c);
    }
  }

  lemma TermsThere(cfg: Config, io: bool, trace: seq<Event>, s: Source)
    ensures Terms(cfg, io, trace, s) != []
  {
    RunFollows(cfg, trace, io);
    assert Follows(cfg, trace, Run(cfg, trace), io, s);
  }

  /** One more event. */
  ghost predicate Longer(cfg: Config, rest: seq<Event>, e: Event, trace: seq<Event>, io: bool, c: seq<nat>) {
    trace == rest + [e] && rest == trace[..|trace| - 1] && e == trace[|trace| - 1] && MeetsSoFar(Graph(cfg, io, trace), c)
  }

  lemma MeetsBefore(cfg: Config, trace: seq<Event>, io: bool, c: seq<nat>)
    requires trace != [] && MeetsSoFar(Graph(cfg, io, trace), c)
    ensures MeetsSoFar(Graph(cfg, io, trace[..|trace| - 1]), c)
  {
    var g, g' := Graph(cfg, io, trace[..|trace| - 1]), Graph(cfg, io, trace);
    assert forall k :: 0 <= k < |g| ==> g'[k] == g[k];
  }

  /** What the tables lead to for `v` includes the instruction that made it, and its way. */
  ghost predicate Covers(cfg: Config, trace: seq<Event>, io: bool, c: seq<nat>, m: Made, v: Value) {
    && m.k < |Graph(cfg, io, trace)| == |Scheduled(cfg, trace)| <= |c|
    && c[m.k] + m.lag <= Latest(c, Terms(cfg, io, trace, Operand(v)))
  }

  ghost predicate Covered(cfg: Config, trace: seq<Event>, io: bool, c: seq<nat>, values: Values) {
    forall v :: v in values && values[v].kept ==> Covers(cfg, trace, io, c, values[v], v)
  }

  ghost predicate EntryCovered(cfg: Config, trace: seq<Event>, io: bool, c: seq<nat>, en: Entry) {
    && (en.known ==> LastBlock(Scheduled(cfg, trace)) == en.from)
    && forall v :: v in en.values && en.values[v].kept && v !in en.changed ==> Covers(cfg, trace, io, c, en.values[v], v)
  }

  ghost predicate RunningCovered(cfg: Config, trace: seq<Event>, io: bool, c: seq<nat>, a: Activation) {
    && Covered(cfg, trace, io, c, a.values)
    && (a.seen ==> LastBlock(Scheduled(cfg, trace)) == a.block)
    && (a.entry.Some? ==> EntryCovered(cfg, trace, io, c, a.entry.value))
  }

  ghost predicate AllCovered(cfg: Config, trace: seq<Event>, io: bool, c: seq<nat>, stack: seq<Activation>) {
    forall p :: 0 <= p < |stack| ==> Covered(cfg, trace, io, c, stack[p].values)
  }

  lemma IssuesWhenMet(cfg: Config, io: bool, trace: seq<Event>, i: Instr, c: seq<nat>)
    ensures Latest(c, NeedTerms(cfg, io, trace, Needs(i))) <= Latest(c, InstrTerms(cfg, io, trace, i)) <= Latest(c, IssueTerms(cfg, io, trace, i))
  {
    var n, scheduled := |Scheduled(cfg, trace)|, Scheduled(cfg, trace);
    LatestConcat(c, NeedTerms(cfg, io, trace, Needs(i)), if Needs(i) == [] then [] else InTurn(io, n));
    LatestConcat(c, InstrTerms(cfg, io, trace, i), InTurn(io, n) + ControlTurn(cfg, io, scheduled, i));
  }

  /** What a scheduled instruction needs comes before it. */
  lemma NeedIsMet(cfg: Config, rest: seq<Event>, e: Event, trace: seq<Event>, io: bool, c: seq<nat>, need: Need)
    requires Longer(cfg, rest, e, trace, io, c) && e.Visit? && !IsIgnored(cfg, e.i) && need in Needs(e.i)
    ensures |Graph(cfg, io, rest)| == |Scheduled(cfg, rest)| < |Graph(cfg, io, trace)| <= |c|
    ensures c[|Scheduled(cfg, rest)|] >= Latest(c, Terms(cfg, io, rest, need.source)) + need.delay
  {
    ScheduledAreIssued(cfg, rest);
    TermsThere(cfg, io, rest, need.source);
    NeedBounds(cfg, io, rest, Needs(e.i), need, c);
    IssuesWhenMet(cfg, io, rest, e.i, c);
    assert Graph(cfg, io, trace)[|Graph(cfg, io, rest)|] == IssueTerms(cfg, io, rest, e.i);
  }

  predicate Writes(e: Event, v: Value) {
    e.Visit? && (v == Self(e.i) || IsParameter(e.i, v))
  }

  lemma GraphGrowsOn(cfg: Config, rest: seq<Event>, e: Event, trace: seq<Event>, io: bool, c: seq<nat>)
    requires Longer(cfg, rest, e, trace, io, c)
    ensures |Graph(cfg, io, rest)| == |Scheduled(cfg, rest)| <= |Graph(cfg, io, trace)| == |Scheduled(cfg, trace)| <= |c|
  {
    ScheduledAreIssued(cfg, rest);
    ScheduledAreIssued(cfg, trace);
  }

  /** A store through `v` counts as its last use, but comes later than what it waits for. */
  lemma PointerStays(cfg: Config, rest: seq<Event>, e: Event, trace: seq<Event>, io: bool, c: seq<nat>, m: Made, v: Value)
    requires Longer(cfg, rest, e, trace, io, c) && Covers(cfg, rest, io, c, m, v)
    requires e.Visit? && e.i.Store? && v == e.i.pointer && !v.Constant? && v != Self(e.i)
    ensures Covers(cfg, trace, io, c, m, v)
  {
    GraphGrowsOn(cfg, rest, e, trace, io, c);
    NeedIsMet(cfg, rest, e, trace, io, c, Need(Operand(v), 1));
    OneTerm(c, After(|Scheduled(cfg, rest)|, 0));
  }

  /** What is not written stays covered. */
  lemma Stays(cfg: Config, rest: seq<Event>, e: Event, trace: seq<Event>, io: bool, c: seq<nat>, m: Made, v: Value)
    requires Longer(cfg, rest, e, trace, io, c) && Covers(cfg, rest, io, c, m, v) && !Writes(e, v)
    ensures Covers(cfg, trace, io, c, m, v)
  {
    GraphGrowsOn(cfg, rest, e, trace, io, c);
    if e.Return? {
      LatestConcat(c, Terms(cfg, io, rest, Operand(e.result)), Terms(cfg, io, rest, Operand(v)));
    } else if e.i.Store? && v == e.i.pointer && !v.Constant? {
      PointerStays(cfg, rest, e, trace, io, c, m, v);
    } else {
      UnwrittenTerms(cfg, io, rest, e, trace, v);
    }
  }

  lemma UnwrittenTerms(cfg: Config, io: bool, rest: seq<Event>, e: Event, trace: seq<Event>, v: Value)
    requires trace != [] && rest == trace[..|trace| - 1] && e == trace[|trace| - 1] && e.Visit? && !Writes(e, v)
    requires e.i.Store? && v == e.i.pointer ==> v.Constant?
    ensures Terms(cfg, io, trace, Operand(v)) == Terms(cfg, io, rest, Operand(v))
  {
    assert !e.i.PhiNode? ==> EffectOn(cfg, e.i, Operand(v)) == Kept;
  }

  lemma AllStay(cfg: Config, rest: seq<Event>, e: Event, trace: seq<Event>, io: bool, c: seq<nat>, values: Values)
    requires Longer(cfg, rest, e, trace, io, c) && Covered(cfg, rest, io, c, values)
    requires forall v :: v in values && values[v].kept ==> !Writes(e, v)
    ensures Covered(cfg, trace, io, c, values)
  {
    forall v | v in values && values[v].kept ensures Covers(cfg, trace, io, c, values[v], v) {
      Stays(cfg, rest, e, trace, io, c, values[v], v);
    }
  }

  lemma OuterStay(cfg: Config, rest: seq<Event>, e: Event, trace: seq<Event>, io: bool, c: seq<nat>, values: Values)
    requires Longer(cfg, rest, e, trace, io, c) && Covered(cfg, rest, io, c, values) && e.Visit?
    ensures Covered(cfg, trace, io, c, Without(values, e.i))
  {
    var left := Without(values, e.i);
    forall v | v in left && left[v].kept ensures Covers(cfg, rest, io, c, left[v], v) && !Writes(e, v) {
      assert Covers(cfg, rest, io, c, values[v], v);
    }
    AllStay(cfg, rest, e, trace, io, c, left);
  }

  lemma SetCovered(cfg: Config, trace: seq<Event>, io: bool, c: seq<nat>, values: Values, v: Value, m: Option<Made>)
    requires forall u :: u in values && values[u].kept && u != v ==> Covers(cfg, trace, io, c, values[u], u)
    requires m.Some? && m.value.kept ==> Covers(cfg, trace, io, c, m.value, v)
    ensures Covered(cfg, trace, io, c, Set(values, v, m))
  {
  }

  // ----- Phis ------------------------------------------------------------------------------

  lemma EnterCovered(cfg: Config, trace: seq<Event>, io: bool, c: seq<nat>, a: Activation)
    requires RunningCovered(cfg, trace, io, c, a)
    ensures EntryCovered(cfg, trace, io, c, Enter(a))
  {
  }

  /** If the tables know the block before, a phi waits for its own operand. */
  lemma PhiTakes(cfg: Config, rest: seq<Event>, e: Event, trace: seq<Event>, io: bool, c: seq<nat>, m: Made, w: Value)
    requires Longer(cfg, rest, e, trace, io, c) && e.Visit? && e.i.PhiNode? && Covers(cfg, rest, io, c, m, w)
    requires Chosen(e.i.incoming, LastBlock(Scheduled(cfg, rest))) == Some(w)
    ensures Covers(cfg, trace, io, c, m.(lag := m.lag + PhiDelay(w)), Self(e.i))
  {
    GraphGrowsOn(cfg, rest, e, trace, io, c);
    TermsThere(cfg, io, rest, Operand(w));
    var ts, n := Terms(cfg, io, rest, Operand(w)), |Scheduled(cfg, rest)|;
    LatestDelayed(c, ts, 1);
    LatestConcat(c, Delayed(ts, 1), InTurn(io, n));
    assert Terms(cfg, io, trace, Operand(Self(e.i))) == PhiTerms(io, n, w, ts);
  }

  lemma PhiCovered(cfg: Config, rest: seq<Event>, e: Event, trace: seq<Event>, io: bool, c: seq<nat>, a: Activation)
    requires Longer(cfg, rest, e, trace, io, c) && e.Visit? && e.i.PhiNode? && RunningCovered(cfg, rest, io, c, a)
    ensures RunningCovered(cfg, trace, io, c, AtPhi(a, e.i))
  {
    var en, self, a' := Enter(a), Self(e.i), AtPhi(a, e.i);
    var chosen := Chosen(e.i.incoming, en.from);
    EnterCovered(cfg, rest, io, c, a);
    if en.known && chosen.Some? && chosen.value in en.values && en.values[chosen.value].kept && chosen.value !in en.changed {
      PhiTakes(cfg, rest, e, trace, io, c, en.values[chosen.value], chosen.value);
    }
    forall u | u in a.values && a.values[u].kept && u != self ensures Covers(cfg, trace, io, c, a.values[u], u) {
      Stays(cfg, rest, e, trace, io, c, a.values[u], u);
    }
    PhiEntry(cfg, rest, e, trace, io, c, a);
  }

  lemma PhiEntry(cfg: Config, rest: seq<Event>, e: Event, trace: seq<Event>, io: bool, c: seq<nat>, a: Activation)
    requires Longer(cfg, rest, e, trace, io, c) && e.Visit? && e.i.PhiNode? && RunningCovered(cfg, rest, io, c, a)
    ensures EntryCovered(cfg, trace, io, c, AtPhi(a, e.i).entry.value)
  {
    var en, en' := Enter(a), AtPhi(a, e.i).entry.value;
    EnterCovered(cfg, rest, io, c, a);
    forall u | u in en'.values && en'.values[u].kept && u !in en'.changed ensures Covers(cfg, trace, io, c, en'.values[u], u) {
      if u == Self(e.i) {
        PhiTakes(cfg, rest, e, trace, io, c, en.values[u], u);
      } else {
        Stays(cfg, rest, e, trace, io, c, en.values[u], u);
      }
    }
  }

  // ----- Other instructions ----------------------------------------------------------------

  /** How long an instruction waits for its operand: not at all for labels and, unless it goes to
      memory, behind phis. */
  function Wait(i: Instr, v: Value): nat {
    if i.Load? || i.Store? || !ConstantLike(v) then 1 else 0
  }

  /** The operands of an instruction; the arguments of an unknown function are not looked at. */
  function Operands(i: Instr): seq<Value> {
    match i
    case PhiNode(_, _, _) => []
    case Call(_, callee, args, _) => if callee.Some? then args else []
    case Other(_, operands, _, _) => operands
    case Load(_, pointer, _, _) => [pointer]
    case Store(_, stored, pointer, _, _) => [stored, pointer]
  }

  lemma {:induction false} OperandIsNeeded(vs: seq<Value>, n: nat, k: nat)
    requires k < n <= |vs| && IsMade(vs[k])
    ensures Need(Operand(vs[k]), if vs[k].Phi? then 0 else 1) in OperandNeeds(vs, n)
    decreases n
  {
    if k < n - 1 { OperandIsNeeded(vs, n - 1, k); }
  }

  lemma {:induction false} ArgumentIsNeeded(callee: Callee, args: seq<Value>, n: nat, k: nat)
    requires k < n <= |args| && KeepOwn(callee, args, |args|) && IsMade(args[k])
    ensures Need(Operand(args[k]), if args[k].Phi? then 0 else 1) in ArgumentNeeds(callee, args, n)
    decreases n
  {
    if k < n - 1 {
      ArgumentIsNeeded(callee, args, n - 1, k);
    } else {
      PassedIsOwn(callee, args, |args|, k);
    }
  }

  predicate CallKeepsOwn(i: Instr) {
    i.Call? && i.callee.Some? ==> KeepOwn(i.callee.value, i.args, |i.args|)
  }

  lemma IsNeeded(i: Instr, v: Value)
    requires CallKeepsOwn(i) && v in Operands(i) && IsMade(v)
    ensures Need(Operand(v), Wait(i, v)) in Needs(i)
  {
    var k :| 0 <= k < |Operands(i)| && Operands(i)[k] == v;
    match i
    case PhiNode(_, _, _) =>
    case Call(_, callee, args, _) => ArgumentIsNeeded(callee.value, args, |args|, k);
    case Other(_, operands, _, _) => OperandIsNeeded(operands, |operands|, k);
    case Load(_, _, _, _) =>
    case Store(_, _, _, _, _) =>
  }

  ghost predicate OnlyMade(values: Values) {
    forall v :: v in values ==> IsMade(v)
  }

  /** A terminator waits for the operand it hands on. */
  lemma TerminatorHands(cfg: Config, rest: seq<Event>, e: Event, trace: seq<Event>, io: bool, c: seq<nat>, m: Made, v: Value)
    requires Longer(cfg, rest, e, trace, io, c) && e.Visit? && e.i.Other? && v in e.i.operands && IsMade(v)
    requires Covers(cfg, rest, io, c, m, v)
    ensures Covers(cfg, trace, io, c, m.(lag := m.lag + Wait(e.i, v)), Self(e.i))
  {
    var need := Need(Operand(v), Wait(e.i, v));
    GraphGrowsOn(cfg, rest, e, trace, io, c);
    IsNeeded(e.i, v);
    if IsIgnored(cfg, e.i) {
      TermsThere(cfg, io, rest, Operand(v));
      NeedBounds(cfg, io, rest, Needs(e.i), need, c);
      IssuesWhenMet(cfg, io, rest, e.i, c);
      assert Terms(cfg, io, trace, Operand(Self(e.i))) == InstrTerms(cfg, io, rest, e.i);
    } else {
      NeedIsMet(cfg, rest, e, trace, io, c, need);
      OneTerm(c, After(|Scheduled(cfg, rest)|, 0));
    }
  }

  lemma MadeCovered(prog: Program, cfg: Config, rest: seq<Event>, e: Event, trace: seq<Event>, io: bool, c: seq<nat>, values: Values)
    requires Longer(cfg, rest, e, trace, io, c) && e.Visit? && !e.i.PhiNode? && Covered(cfg, rest, io, c, values) && OnlyMade(values)
    ensures var m := MadeBy(prog, cfg, values, e.i, |Scheduled(cfg, rest)|);
      m.Some? && m.value.kept ==> Covers(cfg, trace, io, c, m.value, Self(e.i))
  {
    GraphGrowsOn(cfg, rest, e, trace, io, c);
    if e.i.Other? && e.i.control {
      if e.i.operands != [] && e.i.operands[0] in values && values[e.i.operands[0]].kept {
        TerminatorHands(cfg, rest, e, trace, io, c, values[e.i.operands[0]], e.i.operands[0]);
      }
    } else if !IsIgnored(cfg, e.i) {
      OneTerm(c, After(|Scheduled(cfg, rest)|, 0));
    }
  }

  lemma InstrCovered(prog: Program, cfg: Config, rest: seq<Event>, e: Event, trace: seq<Event>, io: bool, c: seq<nat>, a: Activation)
    requires Longer(cfg, rest, e, trace, io, c) && e.Visit? && !e.i.PhiNode? && RunningCovered(cfg, rest, io, c, a) && OnlyMade(a.values)
    ensures RunningCovered(cfg, trace, io, c, AtInstr(prog, cfg, a, e.i, |Scheduled(cfg, rest)|))
  {
    OuterStay(cfg, rest, e, trace, io, c, a.values);
    MadeCovered(prog, cfg, rest, e, trace, io, c, a.values);
    SetCovered(cfg, trace, io, c, Without(a.values, e.i), Self(e.i), MadeBy(prog, cfg, a.values, e.i, |Scheduled(cfg, rest)|));
  }

  /** What a new activation has for its parameters. */
  lemma {:induction false} PassesAt(callee: Callee, args: seq<Value>, values: Values, n: nat, v: Value)
    requires n <= |args|
    ensures var passes := Passes(callee, args, values, n);
      if IsBound(callee, n, v) then Get(passes, v) == HandedOn(Get(values, args[v.j]), 0, KeepsOwn(callee, args, v.j))
      else v !in passes
    decreases n
  {
    if n > 0 { PassesAt(callee, args, values, n - 1, v); }
  }

  lemma ArgumentTakes(cfg: Config, rest: seq<Event>, e: Event, trace: seq<Event>, io: bool, c: seq<nat>, m: Made, v: Value)
    requires Longer(cfg, rest, e, trace, io, c) && e.Visit? && IsParameter(e.i, v)
    requires KeepsOwn(e.i.callee.value, e.i.args, v.j) && Covers(cfg, rest, io, c, m, e.i.args[v.j])
    ensures Covers(cfg, trace, io, c, m, v)
  {
    GraphGrowsOn(cfg, rest, e, trace, io, c);
    KeptIsPassed(e.i.callee.value, e.i.args, v.j);
  }

  lemma EnteredCovered(prog: Program, cfg: Config, rest: seq<Event>, e: Event, trace: seq<Event>, io: bool, c: seq<nat>, a: Activation)
    requires Longer(cfg, rest, e, trace, io, c) && e.Visit? && IsEntered(prog, e.i) && Covered(cfg, rest, io, c, a.values)
    ensures RunningCovered(cfg, trace, io, c, Entered(prog, a, e.i)[0]) && OnlyMade(Entered(prog, a, e.i)[0].values)
  {
    var callee, args := e.i.callee.value, e.i.args;
    var passes := Passes(callee, args, a.values, |args|);
    forall v | v in passes ensures IsMade(v) && (passes[v].kept ==> Covers(cfg, trace, io, c, passes[v], v)) {
      PassesAt(callee, args, a.values, |args|, v);
      if passes[v].kept { ArgumentTakes(cfg, rest, e, trace, io, c, passes[v], v); }
    }
  }

  /** Behind a return the call waits for its value. */
  lemma ResumeCovered(cfg: Config, rest: seq<Event>, e: Event, trace: seq<Event>, io: bool, c: seq<nat>, a: Activation, values: Values)
    requires Longer(cfg, rest, e, trace, io, c) && e.Return? && Covered(cfg, rest, io, c, a.values) && Covered(cfg, rest, io, c, values)
    ensures RunningCovered(cfg, trace, io, c, Resume(a, e.call, Get(values, e.result)))
  {
    GraphGrowsOn(cfg, rest, e, trace, io, c);
    AllStay(cfg, rest, e, trace, io, c, a.values);
    if IsMade(e.call) {
      LatestConcat(c, Terms(cfg, io, rest, Operand(e.result)), Terms(cfg, io, rest, Operand(e.call)));
      SetCovered(cfg, trace, io, c, a.values, e.call, Get(values, e.result));
    }
  }

  // ----- All activations -------------------------------------------------------------------

  ghost predicate Tracked(cfg: Config, trace: seq<Event>, io: bool, c: seq<nat>, stack: seq<Activation>) {
    && stack != [] && AllCovered(cfg, trace, io, c, stack) && RunningCovered(cfg, trace, io, c, stack[|stack| - 1])
    && forall p :: 0 <= p < |stack| ==> OnlyMade(stack[p].values)
  }

  lemma VisitTracked(prog: Program, cfg: Config, rest: seq<Event>, e: Event, trace: seq<Event>, io: bool, c: seq<nat>, stack: seq<Activation>)
    requires Longer(cfg, rest, e, trace, io, c) && e.Visit? && Tracked(cfg, rest, io, c, stack)
    ensures Tracked(cfg, trace, io, c, Proceed(prog, cfg, stack, e, |Scheduled(cfg, rest)|))
  {
    var outer, top := stack[..|stack| - 1], stack[|stack| - 1];
    forall p | 0 <= p < |outer| ensures Covered(cfg, trace, io, c, AllWithout(outer, e.i)[p].values) {
      OuterStay(cfg, rest, e, trace, io, c, outer[p].values);
    }
    if e.i.PhiNode? {
      PhiCovered(cfg, rest, e, trace, io, c, top);
    } else {
      InstrCovered(prog, cfg, rest, e, trace, io, c, top);
      if IsEntered(prog, e.i) { EnteredCovered(prog, cfg, rest, e, trace, io, c, top); }
    }
  }

  lemma ReturnTracked(prog: Program, cfg: Config, rest: seq<Event>, e: Event, trace: seq<Event>, io: bool, c: seq<nat>, stack: seq<Activation>)
    requires Longer(cfg, rest, e, trace, io, c) && e.Return? && Tracked(cfg, rest, io, c, stack)
    ensures Tracked(cfg, trace, io, c, Proceed(prog, cfg, stack, e, |Scheduled(cfg, rest)|))
  {
    forall p | 0 <= p < |stack| ensures Covered(cfg, trace, io, c, stack[p].values) {
      AllStay(cfg, rest, e, trace, io, c, stack[p].values);
    }
    if |stack| > 1 {
      ResumeCovered(cfg, rest, e, trace, io, c, stack[|stack| - 2], stack[|stack| - 1].values);
    } else {
      EntryStays(cfg, rest, e, trace, io, c, stack[0]);
    }
  }

  lemma EntryStays(cfg: Config, rest: seq<Event>, e: Event, trace: seq<Event>, io: bool, c: seq<nat>, a: Activation)
    requires Longer(cfg, rest, e, trace, io, c) && e.Return? && RunningCovered(cfg, rest, io, c, a)
    ensures RunningCovered(cfg, trace, io, c, a)
  {
    AllStay(cfg, rest, e, trace, io, c, a.values);
    if a.entry.Some? {
      var en := a.entry.value;
      forall u | u in en.values && en.values[u].kept && u !in en.changed ensures Covers(cfg, trace, io, c, en.values[u], u) {
        Stays(cfg, rest, e, trace, io, c, en.values[u], u);
      }
    }
  }

  /** Whatever meets the graph of the tables puts every value the tables have kept behind the
      instruction that made it, by what it has passed on its way. */
  lemma {:induction false} OriginsCovered(prog: Program, cfg: Config, trace: seq<Event>, io: bool, c: seq<nat>)
    requires MeetsSoFar(Graph(cfg, io, trace), c)
    ensures Tracked(cfg, trace, io, c, Activations(prog, cfg, trace))
    decreases |trace|
  {
    if trace != [] {
      var rest, e := trace[..|trace| - 1], trace[|trace| - 1];
      MeetsBefore(cfg, trace, io, c);
      OriginsCovered(prog, cfg, rest, io, c);
      assert Longer(cfg, rest, e, trace, io, c);
      if e.Visit? {
        VisitTracked(prog, cfg, rest, e, trace, io, c, Activations(prog, cfg, rest));
      } else {
        ReturnTracked(prog, cfg, rest, e, trace, io, c, Activations(prog, cfg, rest));
      }
    }
  }

  // ----- Operands --------------------------------------------------------------------------

  /** The instruction at `t` issues behind the one that made its operand `v`, by what the value has
      passed on its way and by its own wait. */
  ghost predicate InOrderWith(prog: Program, cfg: Config, trace: seq<Event>, io: bool, t: nat, v: Value)
    requires t < |trace| && trace[t].Visit?
  {
    var c, k, m := Picked(Run(cfg, trace).issued, io), |Scheduled(cfg, trace[..t])|, Origin(prog, cfg, trace[..t], v);
    && k < |c| && Run(cfg, trace).issued[k].instr == trace[t].i
    && (m.Some? ==> m.value.k < k && c[m.value.k] + m.value.lag + Wait(trace[t].i, v) <= c[k])
  }

  /** The tables have kept the operand `v` of the instruction at `t`. */
  ghost predicate IsKept(prog: Program, cfg: Config, trace: seq<Event>, t: nat, v: Value)
    requires t < |trace| && trace[t].Visit?
  {
    var m := Origin(prog, cfg, trace[..t], v);
    CallKeepsOwn(trace[t].i) && (m.Some? ==> m.value.kept)
  }

  lemma WaitsForOrigin(prog: Program, cfg: Config, rest: seq<Event>, e: Event, trace: seq<Event>, io: bool, c: seq<nat>, v: Value)
    requires Longer(cfg, rest, e, trace, io, c) && e.Visit? && !IsIgnored(cfg, e.i) && v in Operands(e.i) && IsMade(v)
    requires CallKeepsOwn(e.i) && (Origin(prog, cfg, rest, v).Some? ==> Origin(prog, cfg, rest, v).value.kept)
    ensures var k, m := |Scheduled(cfg, rest)|, Origin(prog, cfg, rest, v);
      k < |c| && (m.Some? ==> m.value.k < k && c[m.value.k] + m.value.lag + Wait(e.i, v) <= c[k])
  {
    MeetsBefore(cfg, trace, io, c);
    OriginsCovered(prog, cfg, rest, io, c);
    IsNeeded(e.i, v);
    NeedIsMet(cfg, rest, e, trace, io, c, Need(Operand(v), Wait(e.i, v)));
  }

  lemma LastKeepsItsOrder(prog: Program, cfg: Config, rest: seq<Event>, e: Event, trace: seq<Event>, io: bool, v: Value)
    requires trace == rest + [e] && e.Visit? && !IsIgnored(cfg, e.i) && v in Operands(e.i) && IsMade(v)
    requires IsKept(prog, cfg, trace, |rest|, v)
    ensures InOrderWith(prog, cfg, trace, io, |rest|, v)
  {
    assert trace[..|trace| - 1] == rest == trace[..|rest|];
    SchedulesSolveTheGraph(cfg, trace, io);
    WaitsForOrigin(prog, cfg, rest, e, trace, io, Picked(Run(cfg, trace).issued, io), v);
    ScheduledAreIssued(cfg, rest);
    StepIssues(cfg, Run(cfg, rest), e);
  }

  /** In both schedules of every run, whatever the window and the options, an instruction issues behind
      the one that made its operand, if the tables have kept it. */
  lemma {:induction false} KeptOperandsKeepTheirOrder(prog: Program, cfg: Config, trace: seq<Event>, io: bool, t: nat, v: Value)
    requires t < |trace| && trace[t].Visit? && !IsIgnored(cfg, trace[t].i) && v in Operands(trace[t].i) && IsMade(v)
    requires IsKept(prog, cfg, trace, t, v)
    ensures InOrderWith(prog, cfg, trace, io, t, v)
    decreases |trace|
  {
    var rest := trace[..|trace| - 1];
    if t < |rest| {
      assert rest[..t] == trace[..t];
      KeptOperandsKeepTheirOrder(prog, cfg, rest, io, t, v);
      StepIssues(cfg, Run(cfg, rest), trace[|trace| - 1]);
    } else {
      assert trace == rest + [trace[t]];
      LastKeepsItsOrder(prog, cfg, rest, trace[t], trace, io, v);
    }
  }
}
