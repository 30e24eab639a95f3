/** The two schedules over whole runs. */
module IlpRuns {
  import opened Basics
  import opened IssueWindow
  import opened IlpSchedule

  // ----- Out of order is never later than in order -----------------------------------------

  ghost predicate NotLater(c: Cycles) {
    c.value1 <= c.value2
  }

  ghost predicate TablesNotLater(t: Tables) {
    forall s :: NotLater(Usage(t, s))
  }

  ghost predicate IssuedNotLater(issued: seq<Issued>) {
    forall k :: 0 <= k < |issued| ==> NotLater(issued[k].cycles)
  }

  lemma {:induction false} MetNotLater(t: Tables, needs: seq<Need>, floor: Cycles)
    requires TablesNotLater(t) && NotLater(floor)
    ensures NotLater(Met(t, needs, floor))
    decreases |needs|
  {
    if needs != [] {
      MetNotLater(t, needs[..|needs| - 1], floor);
      assert NotLater(Usage(t, needs[|needs| - 1].source));
    }
  }

  lemma ReadyNotLater(cfg: Config, st: State, i: Instr)
    requires TablesNotLater(st.tables) && IssuedNotLater(st.issued)
    ensures NotLater(Ready(cfg, st, i))
  {
    WindowCycleMonotone(Out(st.issued), InOrder(st.issued), cfg.window);
    MetNotLater(st.tables, Needs(i), Floor(cfg, st.issued));
  }

  lemma RecordedNotLater(t: Tables, i: Instr, c: Cycles)
    requires TablesNotLater(t) && NotLater(c)
    ensures TablesNotLater(Recorded(t, i, c))
  {
    var t' := Recorded(t, i, c);
    forall s ensures NotLater(Usage(t', s)) {
      assert NotLater(Usage(t, s));
      match s
      case Operand(v) =>
        if i.Call? && i.callee.Some? {
          var callee := i.callee.value;
          BoundLookup(t.operands, callee, i.args, |i.args|, v);
          if IsBound(callee, |i.args|, v) { assert NotLater(Usage(t, Operand(Passed(callee, i.args, v.j)))); }
        }
      case Stored(a) =>
      case Loaded(a) =>
    }
  }

  lemma SetNotLater(t: Tables, v: Value, c: Cycles)
    requires TablesNotLater(t) && NotLater(c)
    ensures TablesNotLater(t.(operands := t.operands[v := c]))
  {
    var t' := t.(operands := t.operands[v := c]);
    forall s ensures NotLater(Usage(t', s)) {
      assert NotLater(Usage(t, s));
    }
  }

  lemma StepNotLater(cfg: Config, st: State, e: Event)
    requires !cfg.serialControl && TablesNotLater(st.tables) && IssuedNotLater(st.issued)
    ensures var st' := Step(cfg, st, e); TablesNotLater(st'.tables) && IssuedNotLater(st'.issued)
  {
    match e
    case Return(result, call) =>
      assert NotLater(Usage(st.tables, Operand(result))) && NotLater(Usage(st.tables, Operand(call)));
      SetNotLater(st.tables, call, MaxCycles(Lookup(st.tables.operands, result), Lookup(st.tables.operands, call)));
    case Visit(i) =>
      if i.PhiNode? {
        var chosen := Chosen(i.incoming, LastBlock(Instrs(st.issued)));
        if chosen.Some? {
          assert NotLater(Usage(st.tables, Operand(chosen.value)));
          SetNotLater(st.tables, Self(i), Lookup(Step(cfg, st, e).tables.operands, Self(i)));
        }
      } else {
        ReadyNotLater(cfg, st, i);
        RecordedNotLater(st.tables, i, Ready(cfg, st, i));
        SetNotLater(Recorded(st.tables, i, Ready(cfg, st, i)), Self(i), Issue(cfg, st, i));
      }
  }

  /** With control instructions not serialised, for every trace and window the out-of-order cycle of
      every instruction, operand and address is at most the in-order one. */
  lemma {:induction false} OutOfOrderIsNeverLater(cfg: Config, trace: seq<Event>)
    requires !cfg.serialControl
    ensures var st := Run(cfg, trace);
      IssuedNotLater(st.issued) && TablesNotLater(st.tables)
    decreases |trace|
  {
    if trace != [] {
      var st := Run(cfg, trace[..|trace| - 1]);
      OutOfOrderIsNeverLater(cfg, trace[..|trace| - 1]);
      StepNotLater(cfg, st, trace[|trace| - 1]);
    }
  }

  lemma {:induction false} MaxOfMonotone(a: seq<nat>, b: seq<nat>)
    requires |a| == |b| && forall k :: 0 <= k < |a| ==> a[k] <= b[k]
    ensures MaxOf(a) <= MaxOf(b)
    decreases |a|
  {
    if a != [] {
      MaxOfMonotone(a[..|a| - 1], b[..|b| - 1]);
    }
  }

  /** So the out-of-order span is at most the in-order span. */
  lemma SpanIsNeverLonger(cfg: Config, trace: seq<Event>)
    requires !cfg.serialControl
    ensures var issued := Run(cfg, trace).issued; MaxOf(Out(issued)) + 1 <= MaxOf(InOrder(issued)) + 1
  {
    var issued := Run(cfg, trace).issued;
    OutOfOrderIsNeverLater(cfg, trace);
    forall k | 0 <= k < |issued| ensures Out(issued)[k] <= InOrder(issued)[k] {
      assert NotLater(issued[k].cycles);
    }
    MaxOfMonotone(Out(issued), InOrder(issued));
  }

  lemma OutSnoc(issued: seq<Issued>, x: Issued)
    ensures Out(issued + [x]) == Out(issued) + [x.cycles.value1]
    ensures InOrder(issued + [x]) == InOrder(issued) + [x.cycles.value2]
  {
  }

  /** A step schedules one instruction at most, not before any scheduled so far in order. */
  lemma StepIssues(cfg: Config, st: State, e: Event)
    ensures var issued := Step(cfg, st, e).issued;
      if e.Visit? && !IsIgnored(cfg, e.i) then issued == st.issued + [Issued(e.i, Issue(cfg, st, e.i))]
      else issued == st.issued
  {
  }

  /** Loads, stores and what neither calls nor ends a block are always scheduled, calls and terminators
      unless control is ignored, phis and returns never. */
  lemma WhatIsScheduled(cfg: Config, st: State, e: Event)
    ensures |Step(cfg, st, e).issued| == |st.issued| +
      match e
      case Return(_, _) => 0
      case Visit(PhiNode(_, _, _)) => 0
      case Visit(Call(_, _, _, _)) => if cfg.ignoreControl then 0 else 1
      case Visit(Other(_, _, control, _)) => if control && cfg.ignoreControl then 0 else 1
      case Visit(Load(_, _, _, _)) => 1
      case Visit(Store(_, _, _, _, _)) => 1
  {
    StepIssues(cfg, st, e);
  }

  ghost predicate NeverDecreases(s: seq<nat>) {
    forall j, k :: 0 <= j <= k < |s| ==> s[j] <= s[k]
  }

  /** In-order cycles never decrease in program order. */
  lemma {:induction false} InOrderNeverDecreases(cfg: Config, trace: seq<Event>)
    ensures NeverDecreases(InOrder(Run(cfg, trace).issued))
    decreases |trace|
  {
    if trace != [] {
      var st, e := Run(cfg, trace[..|trace| - 1]), trace[|trace| - 1];
      InOrderNeverDecreases(cfg, trace[..|trace| - 1]);
      MaxOfBounds(InOrder(st.issued));
      StepIssues(cfg, st, e);
      if e.Visit? && !IsIgnored(cfg, e.i) {
        OutSnoc(st.issued, Issued(e.i, Issue(cfg, st, e.i)));
      }
    }
  }

  // ----- Serialised control ----------------------------------------------------------------

  ghost predicate ControlBelow(issued: seq<Issued>, cycle: nat) {
    forall k :: 0 <= k < |issued| && IsControl(issued[k].instr) ==> issued[k].cycles.value1 < cycle
  }

  ghost predicate InTurns(issued: seq<Issued>) {
    forall j, k :: 0 <= j < k < |issued| && IsControl(issued[j].instr) && IsControl(issued[k].instr)
      ==> issued[j].cycles.value1 < issued[k].cycles.value1
  }

  /** With control serialised, no two control instructions issue in one out-of-order cycle: they
      issue in program order, and the next one behind all of them. */
  lemma {:induction false} ControlIssuesInTurns(cfg: Config, trace: seq<Event>)
    requires cfg.serialControl
    ensures var st := Run(cfg, trace); InTurns(st.issued) && ControlBelow(st.issued, st.minControl)
    decreases |trace|
  {
    if trace != [] {
      var st, e := Run(cfg, trace[..|trace| - 1]), trace[|trace| - 1];
      ControlIssuesInTurns(cfg, trace[..|trace| - 1]);
      StepIssues(cfg, st, e);
      assert Step(cfg, st, e).minControl >= st.minControl;
    }
  }
}
