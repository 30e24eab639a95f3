/** The dependence graph of a trace, defined without any cycles: what every instruction waits for, in
    the tables, in the window, and in its turn. Both schedules are its least solution. */
module DataFlow {
  import opened Basics
  import opened IssueWindow
  import opened IlpSchedule
  import opened IlpRuns

  /** `delay` cycles after the start, after the `k`-th scheduled instruction, or after a window of size
      `w` first has room behind the first `n`. */
  datatype Term = Start(delay: nat) | After(k: nat, delay: nat) | Room(n: nat, w: nat, delay: nat)

  function Delay(t: Term, d: nat): Term {
    t.(delay := t.delay + d)
  }

  function Delayed(ts: seq<Term>, d: nat): (r: seq<Term>) {
    if ts == [] then [] else Delayed(ts[..|ts| - 1], d) + [Delay(ts[|ts| - 1], d)]
  }

  /** The instructions of a trace that get scheduled. */
  function Scheduled(cfg: Config, trace: seq<Event>): seq<Instr> {
    if trace == [] then []
    else
      var e := trace[|trace| - 1];
      Scheduled(cfg, trace[..|trace| - 1]) + (if e.Visit? && !IsIgnored(cfg, e.i) then [e.i] else [])
  }

  /** What an instruction other than a phi does to a source: set it, add an access to it, give it what
      `v` had, or leave it. */
  datatype Effect = Own | Joined | Takes(v: Value) | Kept

  function EffectOn(cfg: Config, i: Instr, s: Source): Effect
    requires !i.PhiNode?
  {
    if s == Operand(Self(i)) then
      if IsIgnored(cfg, i) && i.Call? && i.callee.None? then Kept else Own
    else match i
      case Call(_, Some(callee), args, _) =>
        if s.Operand? && IsBound(callee, |args|, s.v) then Takes(Passed(callee, args, s.v.j)) else Kept
      case Load(_, _, a, _) => if s == Loaded(a) then Joined else Kept
      case Store(_, _, pointer, a, _) =>
        if s == Operand(pointer) && !pointer.Constant? then Own else if s == Stored(a) then Joined else Kept
      case _ => Kept
  }

  /** The window has room behind the first `n` instructions. */
  function InWindow(cfg: Config, n: nat): Term {
    if cfg.window == 0 then Start(0) else Room(n, cfg.window, 0)
  }

  /** In order, nothing issues before the instruction scheduled last. */
  function InTurn(io: bool, n: nat): seq<Term> {
    if io && n > 0 then [After(n - 1, 0)] else []
  }

  function LastControl(scheduled: seq<Instr>): Option<nat> {
    if scheduled == [] then None
    else if IsControl(scheduled[|scheduled| - 1]) then Some(|scheduled| - 1)
    else LastControl(scheduled[..|scheduled| - 1])
  }

  /** Out of order, serialised control instructions wait for each other. */
  function ControlTurn(cfg: Config, io: bool, scheduled: seq<Instr>, i: Instr): seq<Term> {
    var m := LastControl(scheduled);
    if !io && cfg.serialControl && IsControl(i) && m.Some? then [After(m.value, 1)] else []
  }

  /** A phi goes back to what its value `v` goes back to, one cycle behind the result of an instruction
      and a parameter; in order, it is then in turn as well. */
  function PhiTerms(io: bool, n: nat, v: Value, ts: seq<Term>): seq<Term> {
    if v.Result? || v.Argument? then Delayed(ts, 1) + InTurn(io, n) else ts
  }

  /** What the last use of an operand, or the accesses to an address, go back to in the out-of-order
      or the in-order schedule. */
  function Terms(cfg: Config, io: bool, trace: seq<Event>, s: Source): seq<Term>
    decreases |trace|, 0
  {
    if trace == [] then [Start(0)]
    else
      var rest, e := trace[..|trace| - 1], trace[|trace| - 1];
      match e
      case Return(result, call) =>
        if s == Operand(call) && !call.Constant? then Terms(cfg, io, rest, Operand(result)) + Terms(cfg, io, rest, s)
        else Terms(cfg, io, rest, s)
      case Visit(i) =>
        if i.PhiNode? then
          var v := Chosen(i.incoming, LastBlock(Scheduled(cfg, rest)));
          if s == Operand(Self(i)) && v.Some? then
            PhiTerms(io, |Scheduled(cfg, rest)|, v.value, Terms(cfg, io, rest, Operand(v.value)))
          else Terms(cfg, io, rest, s)
        else
          var own := if IsIgnored(cfg, i) then InstrTerms(cfg, io, rest, i) else [After(|Scheduled(cfg, rest)|, 0)];
          match EffectOn(cfg, i, s)
          case Own => own
          case Joined => Terms(cfg, io, rest, s) + own
          case Takes(v) => Terms(cfg, io, rest, Operand(v))
          case Kept => Terms(cfg, io, rest, s)
  }

  function NeedTerms(cfg: Config, io: bool, trace: seq<Event>, needs: seq<Need>): seq<Term>
    decreases |trace|, 1, |needs|
  {
    if needs == [] then [InWindow(cfg, |Scheduled(cfg, trace)|)]
    else
      var last := needs[|needs| - 1];
      NeedTerms(cfg, io, trace, needs[..|needs| - 1]) + Delayed(Terms(cfg, io, trace, last.source), last.delay)
  }

  /** When an instruction visited behind `trace` is ready. */
  function InstrTerms(cfg: Config, io: bool, trace: seq<Event>, i: Instr): seq<Term>
    decreases |trace|, 2
  {
    NeedTerms(cfg, io, trace, Needs(i)) + (if Needs(i) == [] then [] else InTurn(io, |Scheduled(cfg, trace)|))
  }

  /** When it issues. */
  function IssueTerms(cfg: Config, io: bool, trace: seq<Event>, i: Instr): seq<Term> {
    InstrTerms(cfg, io, trace, i) + (InTurn(io, |Scheduled(cfg, trace)|) + ControlTurn(cfg, io, Scheduled(cfg, trace), i))
  }

  /** The graph: what each scheduled instruction waits for. */
  function Graph(cfg: Config, io: bool, trace: seq<Event>): seq<seq<Term>> {
    if trace == [] then []
    else
      var rest, e := trace[..|trace| - 1], trace[|trace| - 1];
      Graph(cfg, io, rest) + (if e.Visit? && !IsIgnored(cfg, e.i) then [IssueTerms(cfg, io, rest, e.i)] else [])
  }

  // ----- Costs -----------------------------------------------------------------------------

  function First(c: seq<nat>, n: nat): seq<nat> {
    if n <= |c| then c[..n] else c
  }

  function Cost(c: seq<nat>, t: Term): nat {
    match t
    case Start(d) => d
    case After(k, d) => if k < |c| then c[k] + d else d
    case Room(n, w, d) => RoomFrom(First(c, n), w) + d
  }

  /** The latest of some terms when the `k`-th instruction issues at `c[k]`. */
  function Latest(c: seq<nat>, ts: seq<Term>): nat {
    if ts == [] then 0 else Max(Latest(c, ts[..|ts| - 1]), Cost(c, ts[|ts| - 1]))
  }

  /** A term of the first `n` instructions. */
  predicate Among(t: Term, n: nat) {
    match t
    case Start(_) => true
    case After(k, _) => k < n
    case Room(m, _, _) => m <= n
  }

  ghost predicate AllAmong(ts: seq<Term>, n: nat) {
    forall j :: 0 <= j < |ts| ==> Among(ts[j], n)
  }

  ghost predicate Within(ts: seq<Term>, n: nat) {
    ts != [] && AllAmong(ts, n)
  }

  lemma {:induction false} LatestConcat(c: seq<nat>, a: seq<Term>, b: seq<Term>)
    ensures Latest(c, a + b) == Max(Latest(c, a), Latest(c, b))
    decreases |b|
  {
    if b == [] {
      assert a + b == a;
    } else {
      LatestConcat(c, a, b[..|b| - 1]);
      assert (a + b)[..|a + b| - 1] == a + b[..|b| - 1];
    }
  }

  lemma OneTerm(c: seq<nat>, t: Term)
    ensures Latest(c, [t]) == Cost(c, t)
  {
    assert [t][..0] == [] && Latest(c, [t]) == Max(Latest(c, [t][..0]), Cost(c, [t][0]));
  }

  lemma {:induction false} LatestDelayed(c: seq<nat>, ts: seq<Term>, d: nat)
    requires ts != []
    ensures Latest(c, Delayed(ts, d)) == Latest(c, ts) + d && Delayed(ts, d) != []
    ensures forall n :: AllAmong(ts, n) ==> AllAmong(Delayed(ts, d), n)
    decreases |ts|
  {
    var front, last := ts[..|ts| - 1], ts[|ts| - 1];
    var r := Delayed(ts, d);
    assert r[..|r| - 1] == Delayed(front, d) && r[|r| - 1] == Delay(last, d);
    if front != [] {
      LatestDelayed(c, front, d);
      forall n | AllAmong(ts, n) ensures AllAmong(r, n) {
        assert AllAmong(front, n);
      }
    }
  }

  lemma CostIgnores(c: seq<nat>, x: nat, t: Term)
    requires Among(t, |c|)
    ensures Cost(c + [x], t) == Cost(c, t)
  {
    if t.Room? {
      assert First(c + [x], t.n) == First(c, t.n);
    }
  }

  lemma {:induction false} LatestIgnores(c: seq<nat>, x: nat, ts: seq<Term>)
    requires AllAmong(ts, |c|)
    ensures Latest(c + [x], ts) == Latest(c, ts)
    decreases |ts|
  {
    if ts != [] {
      LatestIgnores(c, x, ts[..|ts| - 1]);
      CostIgnores(c, x, ts[|ts| - 1]);
    }
  }

  lemma {:induction false} LatestBounds(c: seq<nat>, ts: seq<Term>)
    ensures forall j :: 0 <= j < |ts| ==> Cost(c, ts[j]) <= Latest(c, ts)
    ensures ts != [] ==> exists j :: 0 <= j < |ts| && Cost(c, ts[j]) == Latest(c, ts)
    decreases |ts|
  {
    if ts != [] {
      var front := ts[..|ts| - 1];
      LatestBounds(c, front);
      assert forall j :: 0 <= j < |front| ==> ts[j] == front[j];
      if Latest(c, front) <= Cost(c, ts[|ts| - 1]) {
        assert Cost(c, ts[|ts| - 1]) == Latest(c, ts);
      } else {
        var j :| 0 <= j < |front| && Cost(c, front[j]) == Latest(c, front);
        assert Cost(c, ts[j]) == Latest(c, ts);
      }
    }
  }

  // ----- The cycles follow the graph -------------------------------------------------------

  function Pick(c: Cycles, io: bool): nat {
    if io then c.value2 else c.value1
  }

  function Picked(issued: seq<Issued>, io: bool): seq<nat> {
    if io then InOrder(issued) else Out(issued)
  }

  /** The cycle `x` is that of the terms `ts` when the first `|c|` instructions issue at `c`. */
  ghost predicate IsLatest(c: seq<nat>, x: nat, ts: seq<Term>) {
    Within(ts, |c|) && x == Latest(c, ts)
  }

  ghost predicate Follows(cfg: Config, trace: seq<Event>, st: State, io: bool, s: Source) {
    IsLatest(Picked(st.issued, io), Pick(Usage(st.tables, s), io), Terms(cfg, io, trace, s))
  }

  ghost predicate AllFollow(cfg: Config, trace: seq<Event>, st: State, io: bool) {
    forall s :: Follows(cfg, trace, st, io, s)
  }

  /** The counters of the state in terms of what has been scheduled. */
  ghost predicate TurnsFollow(cfg: Config, trace: seq<Event>, st: State) {
    && Instrs(st.issued) == Scheduled(cfg, trace)
    && NeverDecreases(InOrder(st.issued))
    && (cfg.serialControl ==> MinControlIs(st))
  }

  ghost predicate MinControlIs(st: State) {
    var m := LastControl(Instrs(st.issued));
    if m.None? then st.minControl == 0
    else m.value < |st.issued| && st.minControl == st.issued[m.value].cycles.value1 + 1
  }

  lemma BothLatest(c: seq<nat>, x: nat, a: seq<Term>, y: nat, b: seq<Term>)
    requires IsLatest(c, x, a) && AllAmong(b, |c|) && y == Latest(c, b)
    ensures IsLatest(c, Max(x, y), a + b)
  {
    LatestConcat(c, a, b);
  }

  lemma InTurnIsLargest(issued: seq<Issued>, io: bool)
    requires NeverDecreases(InOrder(issued))
    ensures AllAmong(InTurn(io, |issued|), |issued|)
    ensures Latest(Picked(issued, io), InTurn(io, |issued|)) == if io then MaxOf(InOrder(issued)) else 0
  {
    var s := InOrder(issued);
    if io && issued != [] {
      OneTerm(s, After(|issued| - 1, 0));
      MaxOfBounds(s);
      assert s[|s| - 1] == MaxOf(s);
    }
  }

  lemma FloorIsRoom(cfg: Config, issued: seq<Issued>, io: bool)
    ensures IsLatest(Picked(issued, io), Pick(Floor(cfg, issued), io), [InWindow(cfg, |issued|)])
  {
    var c := Picked(issued, io);
    OneTerm(c, InWindow(cfg, |issued|));
    assert First(c, |issued|) == c;
    WindowCycleIsRoomFrom(c, cfg.window);
  }

  lemma {:induction false} NeedsFollow(cfg: Config, trace: seq<Event>, st: State, io: bool, needs: seq<Need>)
    requires AllFollow(cfg, trace, st, io) && TurnsFollow(cfg, trace, st)
    ensures IsLatest(Picked(st.issued, io), Pick(Met(st.tables, needs, Floor(cfg, st.issued)), io), NeedTerms(cfg, io, trace, needs))
    decreases |needs|
  {
    var c, floor := Picked(st.issued, io), Floor(cfg, st.issued);
    assert |Scheduled(cfg, trace)| == |st.issued|;
    if needs == [] {
      FloorIsRoom(cfg, st.issued, io);
    } else {
      var front, last := needs[..|needs| - 1], needs[|needs| - 1];
      NeedsFollow(cfg, trace, st, io, front);
      assert Follows(cfg, trace, st, io, last.source);
      var ts := Terms(cfg, io, trace, last.source);
      LatestDelayed(c, ts, last.delay);
      BothLatest(c, Pick(Met(st.tables, front, floor), io), NeedTerms(cfg, io, trace, front),
                 Pick(Usage(st.tables, last.source), io) + last.delay, Delayed(ts, last.delay));
    }
  }

  lemma ReadyFollows(cfg: Config, trace: seq<Event>, st: State, io: bool, i: Instr)
    requires AllFollow(cfg, trace, st, io) && TurnsFollow(cfg, trace, st)
    ensures IsLatest(Picked(st.issued, io), Pick(Ready(cfg, st, i), io), InstrTerms(cfg, io, trace, i))
  {
    var c, met := Picked(st.issued, io), Pick(Met(st.tables, Needs(i), Floor(cfg, st.issued)), io);
    assert |Scheduled(cfg, trace)| == |st.issued|;
    NeedsFollow(cfg, trace, st, io, Needs(i));
    if Needs(i) == [] {
      assert NeedTerms(cfg, io, trace, Needs(i)) + [] == NeedTerms(cfg, io, trace, Needs(i));
    } else {
      InTurnIsLargest(st.issued, io);
      BothLatest(c, met, NeedTerms(cfg, io, trace, Needs(i)), Latest(c, InTurn(io, |st.issued|)), InTurn(io, |st.issued|));
    }
  }

  lemma ControlTurnIs(cfg: Config, st: State, io: bool, i: Instr)
    requires cfg.serialControl ==> MinControlIs(st)
    ensures var c, ts := Picked(st.issued, io), ControlTurn(cfg, io, Instrs(st.issued), i);
      AllAmong(ts, |c|) && Latest(c, ts) == if !io && cfg.serialControl && IsControl(i) then st.minControl else 0
  {
    var m := LastControl(Instrs(st.issued));
    if m.Some? {
      OneTerm(Picked(st.issued, io), After(m.value, 1));
    }
  }

  lemma IssueFollows(cfg: Config, trace: seq<Event>, st: State, io: bool, i: Instr)
    requires AllFollow(cfg, trace, st, io) && TurnsFollow(cfg, trace, st)
    ensures IsLatest(Picked(st.issued, io), Pick(Issue(cfg, st, i), io), IssueTerms(cfg, io, trace, i))
  {
    var c := Picked(st.issued, io);
    var turn, control := InTurn(io, |st.issued|), ControlTurn(cfg, io, Instrs(st.issued), i);
    assert |Scheduled(cfg, trace)| == |st.issued|;
    ReadyFollows(cfg, trace, st, io, i);
    InTurnIsLargest(st.issued, io);
    ControlTurnIs(cfg, st, io, i);
    LatestConcat(c, turn, control);
    BothLatest(c, Pick(Ready(cfg, st, i), io), InstrTerms(cfg, io, trace, i), Latest(c, turn + control), turn + control);
  }

  lemma {:induction false} ScheduledAreIssued(cfg: Config, trace: seq<Event>)
    ensures Instrs(Run(cfg, trace).issued) == Scheduled(cfg, trace)
    ensures forall io :: |Graph(cfg, io, trace)| == |Scheduled(cfg, trace)|
    decreases |trace|
  {
    if trace != [] {
      ScheduledAreIssued(cfg, trace[..|trace| - 1]);
      StepIssues(cfg, Run(cfg, trace[..|trace| - 1]), trace[|trace| - 1]);
    }
  }

  lemma LastControlSnoc(scheduled: seq<Instr>, i: Instr)
    ensures LastControl(scheduled + [i]) == if IsControl(i) then Some(|scheduled|) else LastControl(scheduled)
  {
    var longer := scheduled + [i];
    assert longer[..|longer| - 1] == scheduled && longer[|longer| - 1] == i;
  }

  lemma MinControlStep(cfg: Config, st: State, e: Event)
    requires cfg.serialControl && MinControlIs(st)
    ensures MinControlIs(Step(cfg, st, e))
  {
    StepIssues(cfg, st, e);
    if e.Visit? && !IsIgnored(cfg, e.i) {
      LastControlSnoc(Instrs(st.issued), e.i);
      assert Instrs(Step(cfg, st, e).issued) == Instrs(st.issued) + [e.i];
    }
  }

  lemma {:induction false} MinControlFollows(cfg: Config, trace: seq<Event>)
    requires cfg.serialControl
    ensures MinControlIs(Run(cfg, trace))
    decreases |trace|
  {
    if trace != [] {
      MinControlFollows(cfg, trace[..|trace| - 1]);
      MinControlStep(cfg, Run(cfg, trace[..|trace| - 1]), trace[|trace| - 1]);
    }
  }

  lemma TurnsAlwaysFollow(cfg: Config, trace: seq<Event>)
    ensures TurnsFollow(cfg, trace, Run(cfg, trace))
  {
    ScheduledAreIssued(cfg, trace);
    InOrderNeverDecreases(cfg, trace);
    if cfg.serialControl { MinControlFollows(cfg, trace); }
  }

  /** `trace` behind which the state is `st`, and one more event. */
  ghost predicate Extends(cfg: Config, trace: seq<Event>, st: State, io: bool, e: Event, trace': seq<Event>) {
    && trace' != [] && trace == trace'[..|trace'| - 1] && e == trace'[|trace'| - 1]
    && AllFollow(cfg, trace, st, io) && TurnsFollow(cfg, trace, st)
  }

  lemma ReturnFollows(cfg: Config, trace: seq<Event>, st: State, io: bool, e: Event, trace': seq<Event>)
    requires Extends(cfg, trace, st, io, e, trace') && e.Return?
    ensures AllFollow(cfg, trace', Step(cfg, st, e), io)
  {
    forall s ensures Follows(cfg, trace', Step(cfg, st, e), io, s) {
      var result := Operand(e.result);
      assert Follows(cfg, trace, st, io, s) && Follows(cfg, trace, st, io, result);
      if s == Operand(e.call) && !e.call.Constant? {
        BothLatest(Picked(st.issued, io), Pick(Usage(st.tables, result), io), Terms(cfg, io, trace, result),
                   Pick(Usage(st.tables, s), io), Terms(cfg, io, trace, s));
      }
    }
  }

  /** A visited phi has the cycles its value had for a constant, a label, another phi and the result of
      a call, one cycle more for the result of an instruction and a parameter; those are then not before
      the largest in-order cycle so far. Everything else keeps its own. */
  lemma VisitedPhi(st: State, i: Instr, v: Value, s: Source)
    requires i.PhiNode? && Chosen(i.incoming, LastBlock(Instrs(st.issued))) == Some(v)
    ensures var usage, after := Usage(st.tables, Operand(v)), Usage(AfterPhi(st, i).tables, s);
      if s != Operand(Self(i)) then after == Usage(st.tables, s)
      else match v
        case Constant(_) => after == usage
        case Label(_) => after == usage
        case Phi(_) => after == usage
        case CallResult(_) => after == usage
        case Result(_) => after == Cycles(usage.value1 + 1, Max(usage.value2 + 1, MaxOf(InOrder(st.issued))))
        case Argument(_, _) => after == Cycles(usage.value1 + 1, Max(usage.value2 + 1, MaxOf(InOrder(st.issued))))
  {
  }

  lemma PhiLatest(issued: seq<Issued>, io: bool, v: Value, x: nat, ts: seq<Term>)
    requires NeverDecreases(InOrder(issued)) && IsLatest(Picked(issued, io), x, ts)
    ensures IsLatest(Picked(issued, io),
                     if v.Result? || v.Argument? then Max(x + 1, if io then MaxOf(InOrder(issued)) else 0) else x,
                     PhiTerms(io, |issued|, v, ts))
  {
    var c := Picked(issued, io);
    if v.Result? || v.Argument? {
      LatestDelayed(c, ts, 1);
      InTurnIsLargest(issued, io);
      BothLatest(c, x + 1, Delayed(ts, 1), Latest(c, InTurn(io, |issued|)), InTurn(io, |issued|));
    }
  }

  lemma PhiFollows(cfg: Config, trace: seq<Event>, st: State, io: bool, e: Event, trace': seq<Event>)
    requires Extends(cfg, trace, st, io, e, trace') && e.Visit? && e.i.PhiNode?
    ensures AllFollow(cfg, trace', Step(cfg, st, e), io)
  {
    var chosen := Chosen(e.i.incoming, LastBlock(Instrs(st.issued)));
    assert |Scheduled(cfg, trace)| == |st.issued|;
    forall s ensures Follows(cfg, trace', Step(cfg, st, e), io, s) {
      assert Follows(cfg, trace, st, io, s);
      if chosen.Some? {
        VisitedPhi(st, e.i, chosen.value, s);
      }
      if s == Operand(Self(e.i)) && chosen.Some? {
        var source := Operand(chosen.value);
        assert Follows(cfg, trace, st, io, source);
        PhiLatest(st.issued, io, chosen.value, Pick(Usage(st.tables, source), io), Terms(cfg, io, trace, source));
      } else {
        assert Terms(cfg, io, trace', s) == Terms(cfg, io, trace, s);
      }
    }
  }

  lemma RecordedUsage(cfg: Config, t: Tables, i: Instr, c: Cycles, s: Source)
    requires !i.PhiNode?
    ensures var after := Usage(Recorded(t, i, c), s);
      match EffectOn(cfg, i, s)
      case Own => s == Operand(Self(i)) || after == c
      case Joined => after == MaxCycles(Usage(t, s), c)
      case Takes(v) => after == Usage(t, Operand(v))
      case Kept => after == Usage(t, s)
    ensures IsIgnored(cfg, i) && EffectOn(cfg, i, s).Own? ==> Usage(Recorded(t, i, c), s) == c
  {
    if i.Call? && i.callee.Some? && s.Operand? {
      BoundLookup(t.operands, i.callee.value, i.args, |i.args|, s.v);
    }
  }

  /** The tables behind an instruction: `ready` is recorded, `c` is its issue cycle. */
  lemma UsageAfter(cfg: Config, st: State, i: Instr, s: Source)
    requires !i.PhiNode?
    ensures var ready, c := Ready(cfg, st, i), Issue(cfg, st, i);
      var own := if IsIgnored(cfg, i) then ready else c;
      var after := Usage(AfterVisit(cfg, st, i).tables, s);
      match EffectOn(cfg, i, s)
      case Own => after == own
      case Joined => after == MaxCycles(Usage(st.tables, s), own)
      case Takes(v) => after == Usage(st.tables, Operand(v))
      case Kept => after == Usage(st.tables, s)
  {
    RecordedUsage(cfg, st.tables, i, Ready(cfg, st, i), s);
    if i.Load? || i.Store? {
      assert Issue(cfg, st, i) == Ready(cfg, st, i);
    }
  }

  /** What a visit changes among the operands: the instruction itself, the parameters of the function it
      calls, and the pointer it stores through. A load is no use of its pointer. */
  lemma OperandsAfter(cfg: Config, st: State, i: Instr, v: Value)
    requires !i.PhiNode? && v != Self(i)
    ensures var before, after := Lookup(st.tables.operands, v), Lookup(AfterVisit(cfg, st, i).tables.operands, v);
      match i
      case Call(_, Some(callee), args, _) =>
        if v.Argument? && v.f == callee.f && v.j < |args| && v.j < callee.params
        then after == Lookup(st.tables.operands, Passed(callee, args, v.j)) else after == before
      case Store(_, _, pointer, _, _) => after == if v == pointer && !v.Constant? then Issue(cfg, st, i) else before
      case _ => after == before
  {
    UsageAfter(cfg, st, i, Operand(v));
  }

  /** A return gives the call the later of the two cycles, in each schedule, and changes nothing else. */
  lemma ReturnedCall(cfg: Config, st: State, result: Value, call: Value, v: Value)
    ensures var t, t' := st.tables.operands, Step(cfg, st, Return(result, call)).tables.operands;
      if v != call || v.Constant? then Lookup(t', v) == Lookup(t, v)
      else
        var a, b, c := Lookup(t, result), Lookup(t, call), Lookup(t', call);
        && a.value1 <= c.value1 && b.value1 <= c.value1 && c.value1 in {a.value1, b.value1}
        && a.value2 <= c.value2 && b.value2 <= c.value2 && c.value2 in {a.value2, b.value2}
  {
  }

  lemma IgnoredFollows(cfg: Config, trace: seq<Event>, st: State, io: bool, e: Event, trace': seq<Event>)
    requires Extends(cfg, trace, st, io, e, trace') && e.Visit? && !e.i.PhiNode? && IsIgnored(cfg, e.i)
    ensures AllFollow(cfg, trace', Step(cfg, st, e), io)
  {
    ReadyFollows(cfg, trace, st, io, e.i);
    forall s ensures Follows(cfg, trace', Step(cfg, st, e), io, s) {
      assert Follows(cfg, trace, st, io, s);
      UsageAfter(cfg, st, e.i, s);
      var effect := EffectOn(cfg, e.i, s);
      if effect.Takes? {
        assert Follows(cfg, trace, st, io, Operand(effect.v));
      }
    }
  }

  /** What follows the graph still does when one more instruction has been issued. */
  lemma LatestKeeps(issued: seq<Issued>, x: Issued, io: bool, cycle: nat, ts: seq<Term>)
    requires IsLatest(Picked(issued, io), cycle, ts)
    ensures IsLatest(Picked(issued + [x], io), cycle, ts)
  {
    OutSnoc(issued, x);
    LatestIgnores(Picked(issued, io), Pick(x.cycles, io), ts);
    assert forall j :: 0 <= j < |ts| ==> Among(ts[j], |issued|);
  }

  lemma LatestOwn(issued: seq<Issued>, x: Issued, io: bool)
    ensures IsLatest(Picked(issued + [x], io), Pick(x.cycles, io), [After(|issued|, 0)])
  {
    OutSnoc(issued, x);
    OneTerm(Picked(issued + [x], io), After(|issued|, 0));
  }

  lemma ScheduledFollows(cfg: Config, trace: seq<Event>, st: State, io: bool, e: Event, trace': seq<Event>)
    requires Extends(cfg, trace, st, io, e, trace') && e.Visit? && !IsIgnored(cfg, e.i)
    ensures AllFollow(cfg, trace', Step(cfg, st, e), io)
  {
    var i := e.i;
    var x := Issued(i, Issue(cfg, st, i));
    var st' := Step(cfg, st, e);
    LatestOwn(st.issued, x, io);
    assert st'.issued == st.issued + [x] && |Scheduled(cfg, trace)| == |st.issued|;
    forall s ensures Follows(cfg, trace', st', io, s) {
      assert Follows(cfg, trace, st, io, s);
      UsageAfter(cfg, st, i, s);
      var effect, ts := EffectOn(cfg, i, s), Terms(cfg, io, trace, s);
      LatestKeeps(st.issued, x, io, Pick(Usage(st.tables, s), io), ts);
      if effect.Joined? {
        BothLatest(Picked(st'.issued, io), Pick(Usage(st.tables, s), io), ts, Pick(x.cycles, io), [After(|st.issued|, 0)]);
      } else if effect.Takes? {
        var source := Operand(effect.v);
        assert Follows(cfg, trace, st, io, source);
        LatestKeeps(st.issued, x, io, Pick(Usage(st.tables, source), io), Terms(cfg, io, trace, source));
      }
    }
  }

  /** Every entry of the tables is exactly the latest of what it goes back to, in both schedules. */
  lemma {:induction false} RunFollows(cfg: Config, trace: seq<Event>, io: bool)
    ensures AllFollow(cfg, trace, Run(cfg, trace), io)
    decreases |trace|
  {
    if trace == [] {
      forall s ensures Follows(cfg, trace, Run(cfg, trace), io, s) {
        OneTerm([], Start(0));
      }
    } else {
      var rest, e := trace[..|trace| - 1], trace[|trace| - 1];
      var st := Run(cfg, rest);
      RunFollows(cfg, rest, io);
      TurnsAlwaysFollow(cfg, rest);
      if e.Return? {
        ReturnFollows(cfg, rest, st, io, e, trace);
      } else if e.i.PhiNode? {
        PhiFollows(cfg, rest, st, io, e, trace);
      } else if IsIgnored(cfg, e.i) {
        IgnoredFollows(cfg, rest, st, io, e, trace);
      } else {
        ScheduledFollows(cfg, rest, st, io, e, trace);
      }
    }
  }

  // ----- Exact, least, longest -------------------------------------------------------------

  /** Issue cycles that give every instruction what it waits for. */
  ghost predicate Meets(g: seq<seq<Term>>, c: seq<nat>) {
    |c| == |g| && forall k :: 0 <= k < |g| ==> c[k] >= Latest(c, g[k])
  }

  ghost predicate Solves(g: seq<seq<Term>>, c: seq<nat>) {
    |c| == |g| && forall k :: 0 <= k < |g| ==> c[k] == Latest(c, g[k])
  }

  ghost predicate Backward(g: seq<seq<Term>>) {
    forall k :: 0 <= k < |g| ==> Within(g[k], k)
  }

  lemma GraphGrows(g: seq<seq<Term>>, c: seq<nat>, ts: seq<Term>, x: nat)
    requires Backward(g) && Solves(g, c) && IsLatest(c, x, ts)
    ensures Backward(g + [ts]) && Solves(g + [ts], c + [x])
  {
    forall k | 0 <= k < |g| ensures Latest(c + [x], g[k]) == Latest(c, g[k]) {
      assert Within(g[k], k);
      assert AllAmong(g[k], |c|);
      LatestIgnores(c, x, g[k]);
    }
    LatestIgnores(c, x, ts);
  }

  /** Both schedules of every run, whatever the window and the options, issue every instruction exactly
      when all it waits for allows it. */
  lemma {:induction false} SchedulesSolveTheGraph(cfg: Config, trace: seq<Event>, io: bool)
    ensures var g, c := Graph(cfg, io, trace), Picked(Run(cfg, trace).issued, io);
      Backward(g) && Solves(g, c)
    decreases |trace|
  {
    if trace != [] {
      var rest, e := trace[..|trace| - 1], trace[|trace| - 1];
      var st := Run(cfg, rest);
      SchedulesSolveTheGraph(cfg, rest, io);
      StepIssues(cfg, st, e);
      if e.Visit? && !IsIgnored(cfg, e.i) {
        var x := Issue(cfg, st, e.i);
        RunFollows(cfg, rest, io);
        TurnsAlwaysFollow(cfg, rest);
        IssueFollows(cfg, rest, st, io, e.i);
        OutSnoc(st.issued, Issued(e.i, x));
        GraphGrows(Graph(cfg, io, rest), Picked(st.issued, io), IssueTerms(cfg, io, rest, e.i), Pick(x, io));
      }
    }
  }

  lemma RoomFromMonotone(c: seq<nat>, a: seq<nat>, w: nat)
    requires |c| == |a| && forall k :: 0 <= k < |c| ==> c[k] <= a[k]
    ensures RoomFrom(c, w) <= RoomFrom(a, w)
  {
    WindowCycleIsRoomFrom(c, w);
    WindowCycleIsRoomFrom(a, w);
    WindowCycleMonotone(c, a, w);
  }

  /** Later issue cycles of the instructions in front make the terms later. */
  lemma {:induction false} LatestMonotone(c: seq<nat>, a: seq<nat>, n: nat, ts: seq<Term>)
    requires n <= |c| == |a| && AllAmong(ts, n) && forall k :: 0 <= k < n ==> c[k] <= a[k]
    ensures Latest(c, ts) <= Latest(a, ts)
    decreases |ts|
  {
    if ts != [] {
      var last := ts[|ts| - 1];
      LatestMonotone(c, a, n, ts[..|ts| - 1]);
      if last.Room? { RoomFromMonotone(First(c, last.n), First(a, last.n), last.w); }
    }
  }

  lemma {:induction false} SolutionIsLeast(g: seq<seq<Term>>, c: seq<nat>, a: seq<nat>, k: nat)
    requires Backward(g) && Solves(g, c) && Meets(g, a) && k < |g|
    ensures c[k] <= a[k]
    decreases k
  {
    assert Within(g[k], k);
    forall j | 0 <= j < k ensures c[j] <= a[j] {
      SolutionIsLeast(g, c, a, j);
    }
    LatestMonotone(c, a, k, g[k]);
  }

  /** So no issue cycles that respect the dependences, the window and the turns are earlier for any
      instruction, in either schedule. */
  lemma SchedulesAreLeast(cfg: Config, trace: seq<Event>, io: bool, a: seq<nat>)
    requires Meets(Graph(cfg, io, trace), a)
    ensures var c := Picked(Run(cfg, trace).issued, io);
      Meets(Graph(cfg, io, trace), c) && forall k :: 0 <= k < |c| ==> c[k] <= a[k]
  {
    var g, c := Graph(cfg, io, trace), Picked(Run(cfg, trace).issued, io);
    SchedulesSolveTheGraph(cfg, trace, io);
    forall k | 0 <= k < |c| ensures c[k] <= a[k] {
      SolutionIsLeast(g, c, a, k);
    }
  }

  // ----- The window in numbers -------------------------------------------------------------

  ghost predicate NoWindow(ts: seq<Term>) {
    forall j :: 0 <= j < |ts| ==> !ts[j].Room?
  }

  /** The window behind the first `n`, and nothing else about windows. */
  ghost predicate OneWindow(cfg: Config, n: nat, ts: seq<Term>) {
    ts != [] && ts[0] == InWindow(cfg, n) && NoWindow(ts[1..])
  }

  lemma OneWindowAdd(cfg: Config, n: nat, a: seq<Term>, b: seq<Term>)
    requires OneWindow(cfg, n, a) && NoWindow(b)
    ensures OneWindow(cfg, n, a + b)
  {
    assert (a + b)[1..] == a[1..] + b;
  }

  lemma {:induction false} DelayedNoWindow(ts: seq<Term>, d: nat)
    requires NoWindow(ts)
    ensures NoWindow(Delayed(ts, d))
    decreases |ts|
  {
    if ts != [] {
      DelayedNoWindow(ts[..|ts| - 1], d);
    }
  }

  /** If control is not ignored, everything in the tables goes back to scheduled instructions. */
  lemma {:induction false} TermsHaveNoWindow(cfg: Config, io: bool, trace: seq<Event>, s: Source)
    requires cfg.ignoreControl ==> cfg.window == 0
    ensures NoWindow(Terms(cfg, io, trace, s))
    decreases |trace|, 0
  {
    if trace != [] {
      var rest, e := trace[..|trace| - 1], trace[|trace| - 1];
      TermsHaveNoWindow(cfg, io, rest, s);
      match e
      case Return(result, _) => TermsHaveNoWindow(cfg, io, rest, Operand(result));
      case Visit(i) =>
        if i.PhiNode? {
          PhiHasNoWindow(cfg, io, rest, i);
        } else {
          if IsIgnored(cfg, i) { NeedsHaveOneWindow(cfg, io, rest, Needs(i)); }
          if EffectOn(cfg, i, s).Takes? { TermsHaveNoWindow(cfg, io, rest, Operand(EffectOn(cfg, i, s).v)); }
        }
    }
  }

  lemma {:induction false} PhiHasNoWindow(cfg: Config, io: bool, trace: seq<Event>, i: Instr)
    requires (cfg.ignoreControl ==> cfg.window == 0) && i.PhiNode?
    ensures var v := Chosen(i.incoming, LastBlock(Scheduled(cfg, trace)));
      v.Some? ==> NoWindow(PhiTerms(io, |Scheduled(cfg, trace)|, v.value, Terms(cfg, io, trace, Operand(v.value))))
    decreases |trace|, 1
  {
    var v := Chosen(i.incoming, LastBlock(Scheduled(cfg, trace)));
    if v.Some? {
      TermsHaveNoWindow(cfg, io, trace, Operand(v.value));
      DelayedNoWindow(Terms(cfg, io, trace, Operand(v.value)), 1);
    }
  }

  lemma {:induction false} NeedsHaveOneWindow(cfg: Config, io: bool, trace: seq<Event>, needs: seq<Need>)
    requires cfg.ignoreControl ==> cfg.window == 0
    ensures OneWindow(cfg, |Scheduled(cfg, trace)|, NeedTerms(cfg, io, trace, needs))
    decreases |trace|, 1, |needs|
  {
    if needs != [] {
      var last := needs[|needs| - 1];
      NeedsHaveOneWindow(cfg, io, trace, needs[..|needs| - 1]);
      TermsHaveNoWindow(cfg, io, trace, last.source);
      DelayedNoWindow(Terms(cfg, io, trace, last.source), last.delay);
      OneWindowAdd(cfg, |Scheduled(cfg, trace)|, NeedTerms(cfg, io, trace, needs[..|needs| - 1]),
                   Delayed(Terms(cfg, io, trace, last.source), last.delay));
    }
  }

  lemma IssueHasOneWindow(cfg: Config, io: bool, trace: seq<Event>, i: Instr)
    requires cfg.ignoreControl ==> cfg.window == 0
    ensures OneWindow(cfg, |Scheduled(cfg, trace)|, IssueTerms(cfg, io, trace, i))
  {
    var n, scheduled := |Scheduled(cfg, trace)|, Scheduled(cfg, trace);
    NeedsHaveOneWindow(cfg, io, trace, Needs(i));
    OneWindowAdd(cfg, n, NeedTerms(cfg, io, trace, Needs(i)), if Needs(i) == [] then [] else InTurn(io, n));
    OneWindowAdd(cfg, n, InstrTerms(cfg, io, trace, i), InTurn(io, n) + ControlTurn(cfg, io, scheduled, i));
  }

  /** The window of an instruction of the graph has room behind those in front of it. */
  lemma {:induction false} GraphHasOneWindow(cfg: Config, io: bool, trace: seq<Event>, k: nat)
    requires (cfg.ignoreControl ==> cfg.window == 0) && k < |Graph(cfg, io, trace)|
    ensures OneWindow(cfg, k, Graph(cfg, io, trace)[k])
    decreases |trace|
  {
    var rest, e := trace[..|trace| - 1], trace[|trace| - 1];
    if k < |Graph(cfg, io, rest)| {
      GraphHasOneWindow(cfg, io, rest, k);
    } else {
      ScheduledAreIssued(cfg, rest);
      IssueHasOneWindow(cfg, io, rest, e.i);
    }
  }

  lemma OneWindowLatest(cfg: Config, n: nat, c: seq<nat>, ts: seq<Term>)
    requires OneWindow(cfg, n, ts)
    ensures Latest(c, ts) == Max(Latest(c, ts[1..]), RoomFrom(First(c, n), cfg.window))
  {
    assert ts == [ts[0]] + ts[1..];
    LatestConcat(c, [ts[0]], ts[1..]);
    OneTerm(c, ts[0]);
  }

  lemma RoomIsRank(s: seq<nat>, sorted: seq<nat>, w: nat)
    requires multiset(s) == multiset(sorted) && NeverIncreases(sorted)
    ensures |sorted| == |s| && RoomFrom(s, w) == if 0 < w <= |s| then sorted[w - 1] + 1 else 0
  {
    assert |s| == |multiset(s)| == |multiset(sorted)| == |sorted|;
    if w > 0 {
      WindowCycleIsRank(s, sorted, w);
      WindowCycleIsRoomFrom(s, w);
    }
  }

  /** If there is no window, or control is not ignored: every instruction issues, in either schedule, at
      the latest of its dependences and turns and, once there are `w` instructions in front of it, the
      next cycle after the `w`-th largest of theirs. */
  lemma WindowIsExact(cfg: Config, trace: seq<Event>, io: bool, k: nat, sorted: seq<nat>)
    requires (cfg.ignoreControl ==> cfg.window == 0) && k < |Run(cfg, trace).issued|
    requires multiset(sorted) == multiset(Picked(Run(cfg, trace).issued, io)[..k]) && NeverIncreases(sorted)
    ensures var g, c, w := Graph(cfg, io, trace), Picked(Run(cfg, trace).issued, io), cfg.window;
      && |g| == |c| && |sorted| == k && g[k] != []
      && c[k] == if 0 < w <= k then Max(Latest(c, g[k][1..]), sorted[w - 1] + 1) else Latest(c, g[k][1..])
  {
    var g, c, w := Graph(cfg, io, trace), Picked(Run(cfg, trace).issued, io), cfg.window;
    SchedulesSolveTheGraph(cfg, trace, io);
    GraphHasOneWindow(cfg, io, trace, k);
    OneWindowLatest(cfg, k, c, g[k]);
    RoomIsRank(c[..k], sorted, w);
  }

  /** A chain of dependences of length `len` that leads to the `k`-th instruction. */
  ghost predicate ChainTo(g: seq<seq<Term>>, k: nat, len: nat)
    requires k < |g|
    decreases k
  {
    exists j :: 0 <= j < |g[k]| && EndsChain(g, k, g[k][j], len)
  }

  ghost predicate EndsChain(g: seq<seq<Term>>, k: nat, t: Term, len: nat)
    requires k < |g|
    decreases k, 0
  {
    match t
    case Start(d) => len == d
    case After(m, d) => m < k && len >= d && ChainTo(g, m, len - d)
    case Room(_, _, _) => false
  }

  ghost predicate WithoutWindow(g: seq<seq<Term>>) {
    forall k :: 0 <= k < |g| ==> NoWindow(g[k])
  }

  lemma {:induction false} SolutionIsLongest(g: seq<seq<Term>>, c: seq<nat>, k: nat)
    requires Backward(g) && WithoutWindow(g) && Solves(g, c) && k < |g|
    ensures ChainTo(g, k, c[k]) && forall len: nat :: ChainTo(g, k, len) ==> len <= c[k]
    decreases k
  {
    assert Within(g[k], k) && NoWindow(g[k]);
    LatestBounds(c, g[k]);
    var j :| 0 <= j < |g[k]| && Cost(c, g[k][j]) == Latest(c, g[k]);
    if g[k][j].After? { SolutionIsLongest(g, c, g[k][j].k); }
    assert EndsChain(g, k, g[k][j], c[k]);
    forall len: nat | ChainTo(g, k, len) ensures len <= c[k] {
      var i :| 0 <= i < |g[k]| && EndsChain(g, k, g[k][i], len);
      assert Cost(c, g[k][i]) <= Latest(c, g[k]);
      match g[k][i]
      case Start(d) =>
      case After(m, d) =>
        SolutionIsLongest(g, c, m);
        assert ChainTo(g, m, len - d);
    }
  }

  /** Without a window the cycle of each instruction, in either schedule, is the length of the longest
      chain that leads to it, and the span is one more than the longest chain of the run. */
  lemma SpanIsLongestChain(cfg: Config, trace: seq<Event>, io: bool)
    requires cfg.window == 0
    ensures var g, c := Graph(cfg, io, trace), Picked(Run(cfg, trace).issued, io);
      && |g| == |c|
      && (forall k :: 0 <= k < |c| ==> ChainTo(g, k, c[k]))
      && (forall k, len: nat :: 0 <= k < |c| && ChainTo(g, k, len) ==> len <= c[k] <= MaxOf(c))
      && (c != [] ==> exists k :: 0 <= k < |c| && ChainTo(g, k, MaxOf(c)))
  {
    var g, c := Graph(cfg, io, trace), Picked(Run(cfg, trace).issued, io);
    SchedulesSolveTheGraph(cfg, trace, io);
    forall k | 0 <= k < |g| ensures NoWindow(g[k]) {
      GraphHasOneWindow(cfg, io, trace, k);
    }
    forall k | 0 <= k < |c| ensures ChainTo(g, k, c[k]) && forall len: nat :: ChainTo(g, k, len) ==> len <= c[k] {
      SolutionIsLongest(g, c, k);
    }
    MaxOfBounds(c);
    if c != [] {
      var k :| 0 <= k < |c| && c[k] == MaxOf(c);
      assert ChainTo(g, k, MaxOf(c));
    }
  }

  // ----- Memory order ----------------------------------------------------------------------

  /** Two accesses to one address, at least one of them a store. */
  predicate Conflict(x: Instr, y: Instr) {
    && (x.Load? || x.Store?) && (y.Load? || y.Store?) && x.address == y.address
    && (x.Store? || y.Store?)
  }

  /** What a term of an address goes back to: the start or an access of the kind. */
  predicate IsAccess(scheduled: seq<Instr>, t: Term, s: Source) {
    match s
    case Operand(_) => false
    case Stored(a) => t == Start(0) || (t.After? && t.delay == 0 && t.k < |scheduled| && scheduled[t.k].Store? && scheduled[t.k].address == a)
    case Loaded(a) => t == Start(0) || (t.After? && t.delay == 0 && t.k < |scheduled| && scheduled[t.k].Load? && scheduled[t.k].address == a)
  }

  /** An address goes back to exactly the stores to it and to exactly the loads from it, the two kept
      apart. */
  lemma {:induction false} AddressesGoBack(cfg: Config, io: bool, trace: seq<Event>, s: Source, t: Term)
    requires !s.Operand?
    ensures t in Terms(cfg, io, trace, s) <==> IsAccess(Scheduled(cfg, trace), t, s)
    decreases |trace|
  {
    if trace != [] {
      var rest, e := trace[..|trace| - 1], trace[|trace| - 1];
      AddressesGoBack(cfg, io, rest, s, t);
    }
  }

  lemma {:induction false} DelayedHas(ts: seq<Term>, t: Term, d: nat)
    requires t in ts
    ensures Delay(t, d) in Delayed(ts, d)
    decreases |ts|
  {
    var front, r := ts[..|ts| - 1], Delayed(ts, d);
    if ts[|ts| - 1] == t {
      assert r[|r| - 1] == Delay(t, d);
    } else {
      assert t in front;
      DelayedHas(front, t, d);
    }
  }

  lemma {:induction false} NeedTermsHave(cfg: Config, io: bool, trace: seq<Event>, needs: seq<Need>, need: Need, t: Term)
    requires need in needs && t in Terms(cfg, io, trace, need.source)
    ensures Delay(t, need.delay) in NeedTerms(cfg, io, trace, needs)
    decreases |needs|
  {
    if needs[|needs| - 1] == need {
      DelayedHas(Terms(cfg, io, trace, need.source), t, need.delay);
    } else {
      assert need in needs[..|needs| - 1];
      NeedTermsHave(cfg, io, trace, needs[..|needs| - 1], need, t);
    }
  }

  lemma ConflictIsNeeded(cfg: Config, io: bool, trace: seq<Event>, j: nat, y: Instr)
    requires j < |Scheduled(cfg, trace)| && Conflict(Scheduled(cfg, trace)[j], y)
    ensures After(j, 1) in IssueTerms(cfg, io, trace, y)
  {
    var x := Scheduled(cfg, trace)[j];
    var source := if x.Store? then Stored(x.address) else Loaded(x.address);
    AddressesGoBack(cfg, io, trace, source, After(j, 0));
    assert Need(source, 1) in Needs(y);
    NeedTermsHave(cfg, io, trace, Needs(y), Need(source, 1), After(j, 0));
  }

  /** In both schedules of every run, whatever the window and the options, a load issues strictly
      after all earlier stores to its address, and a store after all earlier loads and stores. */
  lemma {:induction false} ConflictsKeepTheirOrder(cfg: Config, trace: seq<Event>, io: bool, j: nat, k: nat)
    requires j < k < |Scheduled(cfg, trace)| && Conflict(Scheduled(cfg, trace)[j], Scheduled(cfg, trace)[k])
    ensures var c := Picked(Run(cfg, trace).issued, io); |c| == |Scheduled(cfg, trace)| && c[j] < c[k]
    decreases |trace|
  {
    var rest, e := trace[..|trace| - 1], trace[|trace| - 1];
    ScheduledAreIssued(cfg, trace);
    ScheduledAreIssued(cfg, rest);
    StepIssues(cfg, Run(cfg, rest), e);
    if k < |Scheduled(cfg, rest)| {
      ConflictsKeepTheirOrder(cfg, rest, io, j, k);
    } else {
      ConflictIsNeeded(cfg, io, rest, j, e.i);
      SchedulesSolveTheGraph(cfg, trace, io);
      var c, ts := Picked(Run(cfg, trace).issued, io), Graph(cfg, io, trace)[k];
      LatestBounds(c, ts);
      var i :| 0 <= i < |ts| && ts[i] == After(j, 1);
      assert Cost(c, ts[i]) <= Latest(c, ts);
    }
  }
}
