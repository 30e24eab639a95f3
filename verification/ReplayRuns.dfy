/** Runs of the instrumented program, and the replay that its hooks drive. */
module ReplayRuns {
  import opened Basics
  import opened Program
  import opened Instrument
  import opened Replay

  /** A point of control: block `bb` of function `f`, of which the first `i` instructions have been
      executed and the items `rest` are still to come. */
  datatype Frame = Frame(f: nat, bb: nat, i: nat, rest: seq<Item>)

  /** The machine (`here`, the callers in `stack`, `done`, and what it has `executed`) beside the
      replay (`saved`, `replayed`). */
  datatype Config = Config(here: Frame, stack: seq<Frame>, done: bool, executed: seq<Event>,
                           saved: seq<Pos>, replayed: seq<Event>)

  function PosOf(fr: Frame): Pos {
    Pos(fr.f, fr.bb, fr.i)
  }

  ghost function ReturnPoints(stack: seq<Frame>): seq<Pos> {
    seq(|stack|, k requires 0 <= k < |stack| => PosOf(stack[k]))
  }

  ghost function Entry(m: Module, prologue: seq<Item>, f: nat, bb: nat): Frame
    requires f < |m.functions| && bb < |m.functions[f]|
  {
    Frame(f, bb, 0, HookedModule(m, prologue)[f][bb])
  }

  ghost function Start(m: Module, prologue: seq<Item>): Config
    requires WellFormed(m)
  {
    Config(Entry(m, prologue, m.main, 0), [], false, [], [], [])
  }

  ghost function Replayed(c: Config, w: Walked): Config {
    c.(replayed := c.replayed + w.events, saved := w.saved)
  }

  predicate IsDefined(m: Module, f: nat) {
    f < |m.functions| && m.functions[f] != []
  }

  /** Execute the instruction `x` of the current block; `target` chooses the block of the function that
      a branch goes to. */
  ghost function Execute(m: Module, prologue: seq<Item>, c: Config, x: Instr, target: nat): Config
    requires WellFormed(m) && IsDefined(m, c.here.f) && c.here.rest != []
  {
    var here := c.here.(i := c.here.i + 1, rest := c.here.rest[1..]);
    var c' := c.(executed := c.executed + [Event(PosOf(c.here), ReturnPoints(c.stack))]);
    match x
    case Call(Internal(g)) =>
      if IsDefined(m, g) then c'.(here := Entry(m, prologue, g, 0), stack := c.stack + [here])
      else c'.(done := true)
    case Ret =>
      if c.stack == [] then c'.(done := true)
      else c'.(here := c.stack[|c.stack| - 1], stack := c.stack[..|c.stack| - 1])
    case Branch => c'.(here := Entry(m, prologue, c.here.f, target % |m.functions[c.here.f]|))
    case _ => c'.(here := here)
  }

  /** One step: the next item is executed. The hooks call the replay with the arguments the pass has
      given them. */
  ghost function Step(m: Module, prologue: seq<Item>, c: Config, target: nat): Config
    requires WellFormed(m) && AllInModule(m, c.saved) && IsDefined(m, c.here.f)
  {
    if c.done || c.here.rest == [] then c
    else
      var c' := c.(here := c.here.(rest := c.here.rest[1..]));
      match c.here.rest[0]
      case Original(x) => Execute(m, prologue, c, x, target)
      case Notify(f, bb) =>
        if InModule(m, Pos(f, bb, 0)) then Replayed(c', Walk(m, Pos(f, bb, 0), c.saved)) else c'
      case UpdateVars(f, bb, i) =>
        if InModule(m, Pos(f, bb, i)) then Replayed(c', WalkMemory(m, Pos(f, bb, i), c.saved)) else c'
      case _ => c'
  }

  // ----- The simulation --------------------------------------------------------------------

  ghost predicate IsLlvm(m: Module, p: Pos) {
    InModule(m, p) && p.i < |BlockAt(m, p)| && BlockAt(m, p)[p.i] == Call(Llvm)
  }

  /** The executed instructions the replay is meant to see: all but the calls of llvm functions. */
  ghost function Visible(m: Module, events: seq<Event>): seq<Event> {
    if events == [] then []
    else Visible(m, events[..|events| - 1])
         + (if IsLlvm(m, events[|events| - 1].pos) then [] else [events[|events| - 1]])
  }

  lemma VisibleSnoc(m: Module, events: seq<Event>, e: Event)
    ensures Visible(m, events + [e]) == Visible(m, events) + (if IsLlvm(m, e.pos) then [] else [e])
  {
    assert (events + [e])[..|events|] == events;
  }

  ghost function HookedFrom(m: Module, p: Pos, notified: bool): seq<Item>
    requires InModule(m, p)
  {
    Hooked(BlockAt(m, p), p.f, p.bb, p.i, notified, p.f == m.main)
  }

  /** A caller waits inside a block that has notified. */
  ghost predicate FrameOk(m: Module, fr: Frame) {
    InModule(m, PosOf(fr)) && fr.i < |BlockAt(m, PosOf(fr))| && fr.rest == HookedFrom(m, PosOf(fr), true)
  }

  ghost predicate FramesOk(m: Module, stack: seq<Frame>) {
    forall k :: 0 <= k < |stack| ==> FrameOk(m, stack[k])
  }

  ghost function PhiEvents(p: Pos, n: nat, frames: seq<Pos>): seq<Event> {
    seq(n, k requires 0 <= k => Event(p.(i := k), frames))
  }

  /** The items behind the calls at the top of `main`. */
  ghost function Body(items: seq<Item>): seq<Item> {
    if items != [] && (items[0].Setup? || items[0].InitLibrary?) then Body(items[1..]) else items
  }

  /** The block has not notified yet: only calls in front of it and phis have been executed, and the
      replay has seen none of the latter. */
  ghost predicate Entering(m: Module, c: Config) {
    var p := PosOf(c.here);
    && InModule(m, p) && p.i <= |BlockAt(m, p)|
    && (forall k :: 0 <= k < p.i ==> BlockAt(m, p)[k].Phi?)
    && Body(c.here.rest) == HookedFrom(m, p, false)
    && c.saved == ReturnPoints(c.stack)
    && Visible(m, c.executed) == c.replayed + PhiEvents(p, p.i, c.saved)
  }

  /** The replay stands at the end of the walk from here. */
  ghost predicate Ahead(m: Module, c: Config)
    requires WellFormed(m)
  {
    var p, frames := PosOf(c.here), ReturnPoints(c.stack);
    && InModule(m, p) && p.i < |BlockAt(m, p)| && AllInModule(m, frames)
    && (var x := BlockAt(m, p)[p.i];
        || c.here.rest == HookedFrom(m, p, true)
        || (x.Ret? && c.here.rest == [Original(x)] + HookedFrom(m, p.(i := p.i + 1), true)))
    && Splits(Walked(c.replayed, c.saved), Visible(m, c.executed), Walk(m, p, frames))
  }

  /** A load or store has been executed and its address report comes next. */
  ghost predicate Reporting(m: Module, c: Config) {
    var p := PosOf(c.here);
    && InModule(m, p) && 0 < p.i < |BlockAt(m, p)|
    && IsMemory(BlockAt(m, p)[p.i - 1])
    && c.here.rest == [UpdateVars(p.f, p.bb, p.i - 1)] + HookedFrom(m, p, true)
    && c.saved == ReturnPoints(c.stack)
    && Visible(m, c.executed) == c.replayed + [Event(p.(i := p.i - 1), c.saved)]
  }

  /** What holds after every number of steps. A machine that has stopped has been replayed exactly. */
  ghost predicate InStep(m: Module, c: Config) {
    && WellFormed(m) && FramesOk(m, c.stack) && AllInModule(m, c.saved) && IsDefined(m, c.here.f)
    && (if c.done then Visible(m, c.executed) == c.replayed
        else Entering(m, c) || Ahead(m, c) || Reporting(m, c))
  }

  lemma {:induction false} BodyOfSetup(setup: seq<Item>, items: seq<Item>)
    requires forall k :: 0 <= k < |setup| ==> setup[k].Setup? || setup[k].InitLibrary?
    ensures Body(setup + items) == Body(items)
    decreases |setup|
  {
    if setup == [] {
      assert setup + items == items;
    } else {
      BodyOfSetup(setup[1..], items);
      assert (setup + items)[1..] == setup[1..] + items;
    }
  }

  lemma EntryEnters(m: Module, prologue: seq<Item>, c: Config, f: nat, bb: nat)
    requires WellFormed(m) && IsPrologue(prologue) && f < |m.functions| && bb < |m.functions[f]|
    requires c.here == Entry(m, prologue, f, bb) && c.saved == ReturnPoints(c.stack)
    requires Visible(m, c.executed) == c.replayed
    ensures Entering(m, c)
  {
    var setup := if f == m.main && bb == 0 then prologue else [];
    var items := HookedFrom(m, PosOf(c.here), false);
    BodyOfSetup(setup, items);
    assert c.here.rest == setup + items;
    assert items[0].Original? || items[0].Notify?;
    assert c.replayed + PhiEvents(PosOf(c.here), 0, c.saved) == c.replayed;
  }

  /** A walk from the start of a block passes over its leading phis first. */
  lemma {:induction false} WalkPhis(m: Module, p: Pos, k: nat, saved: seq<Pos>)
    requires WellFormed(m) && InModule(m, p) && AllInModule(m, saved) && k <= p.i < |BlockAt(m, p)|
    requires forall j :: k <= j < p.i ==> BlockAt(m, p)[j].Phi?
    ensures var w, v := Walk(m, p.(i := k), saved), Walk(m, p, saved);
      w.events == PhiEvents(p, p.i, saved)[k..] + v.events && w.saved == v.saved
    decreases p.i - k
  {
    var q := PhiEvents(p, p.i, saved);
    if k < p.i {
      WalkPhis(m, p, k + 1, saved);
      Regroup([q[k]], q[k + 1..], Walk(m, p, saved).events);
      assert q[k..] == [q[k]] + q[k + 1..];
    } else {
      assert q[k..] == [];
    }
  }

  /** Entering: the calls in front and the phis go by, then the notification starts the walk. */
  lemma StepEntering(m: Module, prologue: seq<Item>, c: Config, target: nat)
    requires InStep(m, c) && IsPrologue(prologue) && !c.done && Entering(m, c)
    ensures InStep(m, Step(m, prologue, c, target))
  {
    var p, rest := PosOf(c.here), c.here.rest;
    var b := BlockAt(m, p);
    assert WellFormedBlock(m, b);
    assert IsTerminator(b[|b| - 1]);
    var c' := Step(m, prologue, c, target);
    if rest != [] && (rest[0].Setup? || rest[0].InitLibrary?) {
      assert Entering(m, c');
    } else if b[p.i].Phi? {
      assert rest == HookedFrom(m, p, false);
      assert rest[0] == Original(Phi) && rest[1..] == HookedFrom(m, p.(i := p.i + 1), false);
      PhiGoesBy(m, c, c');
    } else {
      assert rest == HookedFrom(m, p, false);
      assert rest[0] == Notify(p.f, p.bb) && rest[1..] == HookedFrom(m, p, true);
      NotifiedAhead(m, c, c');
    }
  }

  lemma PhiGoesBy(m: Module, c: Config, c': Config)
    requires InStep(m, c) && Entering(m, c)
    requires var p := PosOf(c.here);
      && p.i < |BlockAt(m, p)| && BlockAt(m, p)[p.i].Phi?
      && c' == c.(executed := c.executed + [Event(p, ReturnPoints(c.stack))],
                  here := c.here.(i := p.i + 1, rest := HookedFrom(m, p.(i := p.i + 1), false)))
    ensures Entering(m, c')
  {
    var p := PosOf(c.here);
    var e, phis := Event(p, c.saved), PhiEvents(p, p.i, c.saved);
    VisibleSnoc(m, c.executed, e);
    assert PhiEvents(PosOf(c'.here), p.i + 1, c.saved) == phis + [e];
    var items := c'.here.rest;
    assert items == [] || items[0].Original? || items[0].Notify?;
    Regroup(c.replayed, phis, [e]);
  }

  lemma NotifiedAhead(m: Module, c: Config, c': Config)
    requires InStep(m, c) && Entering(m, c) && c.here.i < |BlockAt(m, PosOf(c.here))|
    requires var p := PosOf(c.here);
      c' == Replayed(c.(here := c.here.(rest := HookedFrom(m, p, true))), Walk(m, p.(i := 0), c.saved))
    ensures Ahead(m, c')
  {
    var p := PosOf(c.here);
    var phis, v := PhiEvents(p, p.i, c.saved), Walk(m, p, c.saved);
    WalkPhis(m, p, 0, c.saved);
    assert phis[0..] == phis;
    Regroup(c.replayed, phis, v.events);
  }

  /** Reporting: the address report makes the replay pass over the load or store and walk on. */
  lemma StepReporting(m: Module, prologue: seq<Item>, c: Config, target: nat)
    requires InStep(m, c) && IsPrologue(prologue) && !c.done && Reporting(m, c)
    ensures InStep(m, Step(m, prologue, c, target))
  {
    var p := PosOf(c.here);
    var before := p.(i := p.i - 1);
    var c' := Step(m, prologue, c, target);
    assert c.here.rest[1..] == HookedFrom(m, p, true);
    var v := Walk(m, p, c.saved);
    assert WalkMemory(m, before, c.saved) == Prepend(Event(before, c.saved), v);
    Regroup(c.replayed, [Event(before, c.saved)], v.events);
    assert Ahead(m, c');
  }

  lemma DumpGoesBy(m: Module, c: Config, c': Config)
    requires InStep(m, c) && Ahead(m, c) && !c.done
    requires var p := PosOf(c.here);
      BlockAt(m, p)[p.i].Ret? && c' == c.(here := c.here.(rest := [Original(Ret)] + HookedFrom(m, p.(i := p.i + 1), true)))
    ensures InStep(m, c')
  {
    assert PosOf(c'.here) == PosOf(c.here) && Ahead(m, c');
  }

  /** Ahead: what is executed next is what the replay has already passed over. */
  lemma StepAhead(m: Module, prologue: seq<Item>, c: Config, target: nat)
    requires InStep(m, c) && IsPrologue(prologue) && !c.done && Ahead(m, c)
    ensures InStep(m, Step(m, prologue, c, target))
  {
    var p := PosOf(c.here);
    var b := BlockAt(m, p);
    var x, next := b[p.i], p.(i := p.i + 1);
    assert WellFormedBlock(m, b);
    if c.here.rest == HookedFrom(m, p, true) && p.f == m.main && x.Ret? {
      assert c.here.rest[0] == EndApp && c.here.rest[1..] == [Original(x)] + HookedFrom(m, next, true);
      DumpGoesBy(m, c, c.(here := c.here.(rest := c.here.rest[1..])));
    } else {
      assert c.here.rest != [] && c.here.rest[0] == Original(x);
      AtNext(m, c);
      ExecuteAhead(m, prologue, c, x, target);
    }
  }

  /** Ahead, with the instruction itself as the next item. */
  ghost predicate AtInstr(m: Module, c: Config, x: Instr)
    requires WellFormed(m)
  {
    var p := PosOf(c.here);
    && Ahead(m, c) && x == BlockAt(m, p)[p.i] && c.here.rest != []
    && c.here.rest[1..] == (if IsMemory(x) then [UpdateVars(p.f, p.bb, p.i)] else []) + HookedFrom(m, p.(i := p.i + 1), true)
  }

  /** The replay's account of the instruction about to be executed. */
  lemma Passed(m: Module, c: Config, x: Instr)
    requires WellFormed(m) && AtInstr(m, c, x)
    ensures var p, frames := PosOf(c.here), ReturnPoints(c.stack);
      var next, seen := p.(i := p.i + 1), Visible(m, c.executed + [Event(p, frames)]);
      if IsMemory(x) then c.replayed + [Event(p, frames)] == seen && c.saved == frames
      else if x.Call? && x.callee.Internal? then c.replayed == seen && c.saved == frames + [next]
      else if x == Call(Llvm) then Splits(Walked(c.replayed, c.saved), seen, Walk(m, next, frames))
      else Splits(Walked(c.replayed, c.saved), seen, Remaining(m, next, frames, Some(x)))
  {
    var p, frames := PosOf(c.here), ReturnPoints(c.stack);
    VisibleSnoc(m, c.executed, Event(p, frames));
    PassOne(m, p, frames, Walked(c.replayed, c.saved), Visible(m, c.executed));
    assert IsLlvm(m, p) <==> x == Call(Llvm);
    assert Visible(m, c.executed) + [] == Visible(m, c.executed);
  }

  /** Nothing is left of a walk behind a branch or the return from `main`. */
  lemma PassedLast(m: Module, c: Config, x: Instr)
    requires WellFormed(m) && AtInstr(m, c, x) && (x.Branch? || (x.Ret? && c.stack == []))
    ensures var frames := ReturnPoints(c.stack);
      c.replayed == Visible(m, c.executed + [Event(PosOf(c.here), frames)]) && c.saved == frames
  {
    var p, frames := PosOf(c.here), ReturnPoints(c.stack);
    var seen := Visible(m, c.executed + [Event(p, frames)]);
    Passed(m, c, x);
    assert WellFormedBlock(m, BlockAt(m, p));
    assert Remaining(m, p.(i := p.i + 1), frames, Some(x)) == Walked([], frames);
    assert seen + [] == seen;
  }

  lemma PassedReturn(m: Module, c: Config)
    requires WellFormed(m) && AtInstr(m, c, Ret) && c.stack != [] && FramesOk(m, c.stack)
    ensures var frames := ReturnPoints(c.stack);
      && AllInModule(m, frames)
      && Splits(Walked(c.replayed, c.saved), Visible(m, c.executed + [Event(PosOf(c.here), frames)]),
                Walk(m, frames[|frames| - 1], frames[..|frames| - 1]))
  {
    Passed(m, c, Ret);
  }

  lemma ReturnsAhead(m: Module, c: Config, c': Config)
    requires InStep(m, c) && AtInstr(m, c, Ret) && c.stack != [] && !c.done
    requires var e := Event(PosOf(c.here), ReturnPoints(c.stack));
      c' == c.(executed := c.executed + [e], here := c.stack[|c.stack| - 1], stack := c.stack[..|c.stack| - 1])
    ensures InStep(m, c')
  {
    var frames := ReturnPoints(c.stack);
    PassedReturn(m, c);
    assert ReturnPoints(c'.stack) == frames[..|frames| - 1];
    WaitsAhead(m, c, c');
  }

  lemma WaitsAhead(m: Module, c: Config, c': Config)
    requires WellFormed(m) && FramesOk(m, c.stack) && c.stack != [] && AllInModule(m, ReturnPoints(c.stack))
    requires c'.here == c.stack[|c.stack| - 1] && c'.stack == c.stack[..|c.stack| - 1]
    requires var frames := ReturnPoints(c.stack);
      && ReturnPoints(c'.stack) == frames[..|frames| - 1]
      && Splits(Walked(c'.replayed, c'.saved), Visible(m, c'.executed), Walk(m, frames[|frames| - 1], ReturnPoints(c'.stack)))
    ensures Ahead(m, c')
  {
    assert FrameOk(m, c'.here) && PosOf(c'.here) == ReturnPoints(c.stack)[|c.stack| - 1];
  }

  lemma ReportsNext(m: Module, c: Config, c': Config, x: Instr)
    requires InStep(m, c) && AtInstr(m, c, x) && IsMemory(x) && !c.done
    requires var e := Event(PosOf(c.here), ReturnPoints(c.stack));
      c' == c.(executed := c.executed + [e], here := c.here.(i := c.here.i + 1, rest := c.here.rest[1..]))
    ensures InStep(m, c')
  {
    Passed(m, c, x);
    assert WellFormedBlock(m, BlockAt(m, PosOf(c.here)));
    assert PosOf(c'.here).(i := c'.here.i - 1) == PosOf(c.here);
    assert Reporting(m, c');
  }

  lemma FallsThrough(m: Module, c: Config, c': Config, x: Instr)
    requires InStep(m, c) && AtInstr(m, c, x) && !IsMemory(x) && !IsTerminator(x) && !c.done
    requires !(x.Call? && x.callee.Internal?)
    requires var e := Event(PosOf(c.here), ReturnPoints(c.stack));
      c' == c.(executed := c.executed + [e], here := c.here.(i := c.here.i + 1, rest := c.here.rest[1..]))
    ensures InStep(m, c')
  {
    Passed(m, c, x);
    assert WellFormedBlock(m, BlockAt(m, PosOf(c.here)));
    assert Ahead(m, c');
  }

  /** The machine stops behind the return that no call waits for. */
  lemma Stops(m: Module, c: Config, c': Config)
    requires InStep(m, c) && AtInstr(m, c, Ret) && c.stack == []
    requires c' == c.(done := true, executed := c.executed + [Event(PosOf(c.here), ReturnPoints(c.stack))])
    ensures InStep(m, c')
  {
    PassedLast(m, c, Ret);
  }

  lemma BranchEnters(m: Module, prologue: seq<Item>, c: Config, c': Config, target: nat)
    requires InStep(m, c) && IsPrologue(prologue) && AtInstr(m, c, Branch) && !c.done
    requires IsDefined(m, c.here.f) && target < |m.functions[c.here.f]|
    requires c' == c.(executed := c.executed + [Event(PosOf(c.here), ReturnPoints(c.stack))],
                      here := Entry(m, prologue, c.here.f, target))
    ensures InStep(m, c')
  {
    PassedLast(m, c, Branch);
    EntryEnters(m, prologue, c', c.here.f, target);
  }

  lemma CallEnters(m: Module, prologue: seq<Item>, c: Config, c': Config, g: nat)
    requires InStep(m, c) && IsPrologue(prologue) && AtInstr(m, c, Call(Internal(g))) && !c.done
    requires IsDefined(m, g)
    requires c' == c.(executed := c.executed + [Event(PosOf(c.here), ReturnPoints(c.stack))], here := Entry(m, prologue, g, 0),
                      stack := c.stack + [c.here.(i := c.here.i + 1, rest := c.here.rest[1..])])
    ensures InStep(m, c')
  {
    var caller := c.here.(i := c.here.i + 1, rest := c.here.rest[1..]);
    assert FrameOk(m, caller) by { assert WellFormedBlock(m, BlockAt(m, PosOf(c.here))); }
    assert ReturnPoints(c'.stack) == ReturnPoints(c.stack) + [PosOf(caller)];
    Passed(m, c, Call(Internal(g)));
    EntryEnters(m, prologue, c', g, 0);
  }

  lemma CalleeDefined(m: Module, c: Config, g: nat)
    requires WellFormed(m) && AtInstr(m, c, Call(Internal(g)))
    ensures IsDefined(m, g)
  {
    assert WellFormedBlock(m, BlockAt(m, PosOf(c.here)));
  }

  lemma AtNext(m: Module, c: Config)
    requires WellFormed(m) && Ahead(m, c) && c.here.rest != [] && c.here.rest[0].Original?
    ensures AtInstr(m, c, BlockAt(m, PosOf(c.here))[c.here.i])
  {
    var p := PosOf(c.here);
    assert WellFormedBlock(m, BlockAt(m, p));
    var x, next := BlockAt(m, p)[p.i], p.(i := p.i + 1);
    assert c.here.rest[1..] == (if IsMemory(x) then [UpdateVars(p.f, p.bb, p.i)] else []) + HookedFrom(m, next, true);
  }

  lemma ExecuteAhead(m: Module, prologue: seq<Item>, c: Config, x: Instr, target: nat)
    requires InStep(m, c) && IsPrologue(prologue) && !c.done && AtInstr(m, c, x)
    ensures InStep(m, Execute(m, prologue, c, x, target))
  {
    var c' := Execute(m, prologue, c, x, target);
    match x
    case Ret => if c.stack == [] { Stops(m, c, c'); } else { ReturnsAhead(m, c, c'); }
    case Branch => BranchEnters(m, prologue, c, c', target % |m.functions[c.here.f]|);
    case Call(callee) => if callee.Internal? { CalleeDefined(m, c, callee.f); CallEnters(m, prologue, c, c', callee.f); } else { FallsThrough(m, c, c', x); }
    case Load => ReportsNext(m, c, c', x);
    case Store => ReportsNext(m, c, c', x);
    case _ => FallsThrough(m, c, c', x);
  }

  // ----- Whole runs ------------------------------------------------------------------------

  /** All points of control lie in functions of the module. */
  ghost predicate Placed(m: Module, c: Config) {
    AllInModule(m, c.saved) && IsDefined(m, c.here.f) && forall k :: 0 <= k < |c.stack| ==> IsDefined(m, c.stack[k].f)
  }

  lemma StepPlaced(m: Module, prologue: seq<Item>, c: Config, target: nat)
    requires WellFormed(m) && Placed(m, c)
    ensures Placed(m, Step(m, prologue, c, target))
  {
  }

  /** The machine after one step per choice of branch target. */
  ghost function Run(m: Module, prologue: seq<Item>, targets: seq<nat>): (c: Config)
    requires WellFormed(m)
    ensures Placed(m, c)
  {
    if targets == [] then Start(m, prologue)
    else
      var c := Run(m, prologue, targets[..|targets| - 1]);
      StepPlaced(m, prologue, c, targets[|targets| - 1]);
      Step(m, prologue, c, targets[|targets| - 1])
  }

  lemma StartInStep(m: Module, prologue: seq<Item>)
    requires WellFormed(m) && IsPrologue(prologue)
    ensures InStep(m, Start(m, prologue))
  {
    EntryEnters(m, prologue, Start(m, prologue), m.main, 0);
  }

  lemma StepInStep(m: Module, prologue: seq<Item>, c: Config, target: nat)
    requires InStep(m, c) && IsPrologue(prologue)
    ensures InStep(m, Step(m, prologue, c, target))
  {
    if !c.done {
      if Entering(m, c) {
        StepEntering(m, prologue, c, target);
      } else if Ahead(m, c) {
        StepAhead(m, prologue, c, target);
      } else {
        StepReporting(m, prologue, c, target);
      }
    }
  }

  lemma {:induction false} RunInStep(m: Module, prologue: seq<Item>, targets: seq<nat>)
    requires WellFormed(m) && IsPrologue(prologue)
    ensures InStep(m, Run(m, prologue, targets))
    decreases |targets|
  {
    if targets == [] {
      StartInStep(m, prologue);
    } else {
      RunInStep(m, prologue, targets[..|targets| - 1]);
      StepInStep(m, prologue, Run(m, prologue, targets[..|targets| - 1]), targets[|targets| - 1]);
    }
  }

  /** Replay is the identity on finished runs: for every choice of branches, once the program has
      returned from `main`, the replay has passed over exactly the executed instructions that are
      not llvm calls, once each and in order, each under its real call stack. */
  lemma ReplayIsIdentity(m: Module, prologue: seq<Item>, targets: seq<nat>)
    requires WellFormed(m) && IsPrologue(prologue)
    ensures var c := Run(m, prologue, targets); c.done ==> c.replayed == Visible(m, c.executed)
  {
    RunInStep(m, prologue, targets);
  }

  ghost predicate Prefix(a: seq<Event>, b: seq<Event>) {
    |a| <= |b| && b[..|a|] == a
  }

  /** At every moment of every run the replay and the execution agree as far as both have come. */
  lemma ReplayNeverDiverges(m: Module, prologue: seq<Item>, targets: seq<nat>)
    requires WellFormed(m) && IsPrologue(prologue)
    ensures var c := Run(m, prologue, targets);
      Prefix(c.replayed, Visible(m, c.executed)) || Prefix(Visible(m, c.executed), c.replayed)
  {
    RunInStep(m, prologue, targets);
  }

  /** Whenever a notification or an address report is about to run, the saved states are the return
      points on the real call stack. */
  lemma SavedStatesAreTheStack(m: Module, prologue: seq<Item>, targets: seq<nat>)
    requires WellFormed(m) && IsPrologue(prologue)
    ensures var c := Run(m, prologue, targets);
      !c.done && c.here.rest != [] && (c.here.rest[0].Notify? || c.here.rest[0].UpdateVars?)
      ==> c.saved == ReturnPoints(c.stack)
  {
    var c := Run(m, prologue, targets);
    RunInStep(m, prologue, targets);
    if !c.done && Ahead(m, c) {
      assert c.here.rest[0].Original? || c.here.rest[0].EndApp?;
    }
  }

  // ----- Calls and returns -----------------------------------------------------------------

  ghost predicate BehindCallOf(m: Module, p: Pos, f: nat) {
    InModule(m, p) && 0 < p.i <= |BlockAt(m, p)| && BlockAt(m, p)[p.i - 1] == Call(Internal(f))
  }

  /** Each return point is behind the call of the function that runs above it. */
  ghost predicate Linked(m: Module, f: nat, points: seq<Pos>)
    decreases |points|
  {
    points == []
    || (var last := points[|points| - 1]; BehindCallOf(m, last, f) && Linked(m, last.f, points[..|points| - 1]))
  }

  /** An original instruction that comes next is the one at the place of control. */
  lemma NextIsHere(m: Module, c: Config, x: Instr)
    requires InStep(m, c) && !c.done && c.here.rest != [] && c.here.rest[0] == Original(x)
    ensures var p := PosOf(c.here); InModule(m, p) && p.i < |BlockAt(m, p)| && BlockAt(m, p)[p.i] == x
  {
  }

  lemma LinkedSnoc(m: Module, f: nat, points: seq<Pos>, p: Pos, g: nat)
    requires Linked(m, f, points) && p.f == f && BehindCallOf(m, p, g)
    ensures Linked(m, g, points + [p])
  {
    assert (points + [p])[..|points|] == points;
  }

  ghost predicate StackLinked(m: Module, c: Config) {
    Linked(m, c.here.f, ReturnPoints(c.stack))
  }

  lemma CallLinked(m: Module, prologue: seq<Item>, c: Config, x: Instr, target: nat)
    requires WellFormed(m) && IsDefined(m, c.here.f) && c.here.rest != [] && StackLinked(m, c)
    requires var p := PosOf(c.here); InModule(m, p) && p.i < |BlockAt(m, p)| && BlockAt(m, p)[p.i] == x
    requires x.Call? && x.callee.Internal?
    ensures StackLinked(m, Execute(m, prologue, c, x, target))
  {
    var c', points := Execute(m, prologue, c, x, target), ReturnPoints(c.stack);
    if !c'.done || c'.stack != c.stack {
      var p := PosOf(c.here).(i := c.here.i + 1);
      LinkedSnoc(m, c.here.f, points, p, x.callee.f);
      assert ReturnPoints(c'.stack) == points + [p];
    }
  }

  lemma ReturnLinked(m: Module, prologue: seq<Item>, c: Config, target: nat)
    requires WellFormed(m) && IsDefined(m, c.here.f) && c.here.rest != [] && StackLinked(m, c)
    ensures StackLinked(m, Execute(m, prologue, c, Ret, target))
  {
    if c.stack != [] {
      var points, c' := ReturnPoints(c.stack), Execute(m, prologue, c, Ret, target);
      assert ReturnPoints(c'.stack) == points[..|points| - 1];
    }
  }

  lemma StepLinked(m: Module, prologue: seq<Item>, c: Config, target: nat)
    requires InStep(m, c) && StackLinked(m, c)
    ensures StackLinked(m, Step(m, prologue, c, target))
  {
    if !c.done && c.here.rest != [] && c.here.rest[0].Original? {
      var x := c.here.rest[0].instr;
      if x.Call? && x.callee.Internal? {
        NextIsHere(m, c, x);
        CallLinked(m, prologue, c, x, target);
      } else if x.Ret? {
        ReturnLinked(m, prologue, c, target);
      }
    }
  }

  lemma StepExecutes(m: Module, prologue: seq<Item>, c: Config, target: nat)
    requires WellFormed(m) && AllInModule(m, c.saved) && IsDefined(m, c.here.f)
    ensures var c' := Step(m, prologue, c, target);
      c'.executed == c.executed || c'.executed == c.executed + [Event(PosOf(c.here), ReturnPoints(c.stack))]
  {
  }

  ghost predicate AllLinked(m: Module, events: seq<Event>) {
    forall k :: 0 <= k < |events| ==> Linked(m, events[k].pos.f, events[k].frames)
  }

  lemma {:induction false} RunLinked(m: Module, prologue: seq<Item>, targets: seq<nat>)
    requires WellFormed(m) && IsPrologue(prologue)
    ensures var c := Run(m, prologue, targets); StackLinked(m, c) && AllLinked(m, c.executed)
    decreases |targets|
  {
    if targets != [] {
      var before := targets[..|targets| - 1];
      RunLinked(m, prologue, before);
      RunInStep(m, prologue, before);
      StepLinked(m, prologue, Run(m, prologue, before), targets[|targets| - 1]);
      StepExecutes(m, prologue, Run(m, prologue, before), targets[|targets| - 1]);
    }
  }

  lemma {:induction false} VisibleLinked(m: Module, events: seq<Event>)
    requires AllLinked(m, events)
    ensures AllLinked(m, Visible(m, events))
    decreases |events|
  {
    if events != [] {
      VisibleLinked(m, events[..|events| - 1]);
    }
  }

  /** What is replayed in a function under saved states has been called from just before the last of
      them: at a return, the instruction before that point is the call that the return answers. */
  lemma ReturnsAnswerTheirCalls(m: Module, prologue: seq<Item>, targets: seq<nat>, k: nat)
    requires WellFormed(m) && IsPrologue(prologue) && Run(m, prologue, targets).done
    requires k < |Run(m, prologue, targets).replayed|
    ensures var e := Run(m, prologue, targets).replayed[k];
      e.frames != [] ==> BehindCallOf(m, e.frames[|e.frames| - 1], e.pos.f)
  {
    ReplayIsIdentity(m, prologue, targets);
    RunLinked(m, prologue, targets);
    VisibleLinked(m, Run(m, prologue, targets).executed);
  }

  /** Whenever the statistics are about to be dumped, `main` is about to return, no call is open, and the
      replay has seen all executed instructions that are not llvm calls, and this return. */
  lemma DumpSeesAll(m: Module, prologue: seq<Item>, targets: seq<nat>)
    requires WellFormed(m) && IsPrologue(prologue)
    ensures var c := Run(m, prologue, targets);
      !c.done && c.here.rest != [] && c.here.rest[0].EndApp?
      ==> IsReturn(m, PosOf(c.here)) && c.here.f == m.main && c.stack == []
          && c.replayed == Visible(m, c.executed) + [Event(PosOf(c.here), [])]
  {
    var c := Run(m, prologue, targets);
    RunInStep(m, prologue, targets);
    RunLinked(m, prologue, targets);
    if !c.done && c.here.rest != [] && c.here.rest[0].EndApp? {
      MainIsOutermost(m, c);
    }
  }

  ghost predicate IsReturn(m: Module, p: Pos) {
    InModule(m, p) && p.i < |BlockAt(m, p)| && BlockAt(m, p)[p.i].Ret?
  }

  lemma MainIsOutermost(m: Module, c: Config)
    requires InStep(m, c) && StackLinked(m, c) && !c.done && c.here.rest != [] && c.here.rest[0].EndApp?
    ensures IsReturn(m, PosOf(c.here)) && c.here.f == m.main && c.stack == []
  {
  }

  // ----- The library behind a run ----------------------------------------------------------

  /** A call of the library by a hook. */
  datatype HookCall = Notification(f: nat, bb: nat) | AddressReport(f: nat, bb: nat, i: nat)

  function PlaceOf(call: HookCall): Pos {
    match call
    case Notification(f, bb) => Pos(f, bb, 0)
    case AddressReport(f, bb, i) => Pos(f, bb, i)
  }

  ghost predicate CallsInModule(m: Module, calls: seq<HookCall>) {
    forall k :: 0 <= k < |calls| ==> InModule(m, PlaceOf(calls[k]))
  }

  /** The call that the next step makes, if any. */
  ghost function NextCall(m: Module, c: Config): seq<HookCall> {
    if c.done || c.here.rest == [] then []
    else
      match c.here.rest[0]
      case Notify(f, bb) => if InModule(m, Pos(f, bb, 0)) then [Notification(f, bb)] else []
      case UpdateVars(f, bb, i) => if InModule(m, Pos(f, bb, i)) then [AddressReport(f, bb, i)] else []
      case _ => []
  }

  /** The calls the hooks make in a run. */
  ghost function HookCalls(m: Module, prologue: seq<Item>, targets: seq<nat>): seq<HookCall>
    requires WellFormed(m)
  {
    if targets == [] then []
    else
      var before := targets[..|targets| - 1];
      HookCalls(m, prologue, before) + NextCall(m, Run(m, prologue, before))
  }

  ghost function WalkOf(m: Module, call: HookCall, saved: seq<Pos>): (w: Walked)
    requires WellFormed(m) && InModule(m, PlaceOf(call)) && AllInModule(m, saved)
    ensures AllInModule(m, w.saved)
  {
    if call.Notification? then Walk(m, PlaceOf(call), saved) else WalkMemory(m, PlaceOf(call), saved)
  }

  /** What all calls together pass over. */
  ghost function WalkAll(m: Module, calls: seq<HookCall>): (w: Walked)
    requires WellFormed(m) && CallsInModule(m, calls)
    ensures AllInModule(m, w.saved)
    decreases |calls|
  {
    if calls == [] then Walked([], [])
    else
      var w := WalkAll(m, calls[..|calls| - 1]);
      var w' := WalkOf(m, calls[|calls| - 1], w.saved);
      Walked(w.events + w'.events, w'.saved)
  }

  lemma WalkAllSnoc(m: Module, calls: seq<HookCall>, call: HookCall)
    requires WellFormed(m) && CallsInModule(m, calls) && InModule(m, PlaceOf(call))
    ensures CallsInModule(m, calls + [call])
    ensures var w := WalkAll(m, calls);
      WalkAll(m, calls + [call]) == Walked(w.events + WalkOf(m, call, w.saved).events, WalkOf(m, call, w.saved).saved)
  {
    assert (calls + [call])[..|calls|] == calls;
  }

  lemma StepWalks(m: Module, prologue: seq<Item>, c: Config, target: nat)
    requires WellFormed(m) && Placed(m, c)
    ensures var c', call := Step(m, prologue, c, target), NextCall(m, c);
      if call == [] then c'.replayed == c.replayed && c'.saved == c.saved
      else
        && |call| == 1 && InModule(m, PlaceOf(call[0]))
        && c'.replayed == c.replayed + WalkOf(m, call[0], c.saved).events && c'.saved == WalkOf(m, call[0], c.saved).saved
  {
  }

  lemma {:induction false} RunIsWalked(m: Module, prologue: seq<Item>, targets: seq<nat>)
    requires WellFormed(m)
    ensures var c, calls := Run(m, prologue, targets), HookCalls(m, prologue, targets);
      CallsInModule(m, calls) && WalkAll(m, calls) == Walked(c.replayed, c.saved)
    decreases |targets|
  {
    if targets != [] {
      var before := targets[..|targets| - 1];
      var c, calls := Run(m, prologue, before), HookCalls(m, prologue, before);
      RunIsWalked(m, prologue, before);
      StepWalks(m, prologue, c, targets[|targets| - 1]);
      var call := NextCall(m, c);
      if call != [] {
        WalkAllSnoc(m, calls, call[0]);
        assert call == [call[0]];
      } else {
        assert calls + [] == calls;
      }
    }
  }

  method Serve(r: Replayer, call: HookCall)
    requires r.Valid() && InModule(r.m, PlaceOf(call))
    modifies r
    ensures r.Valid()
    ensures var w := WalkOf(r.m, call, old(r.savedStates)); r.replayed == old(r.replayed) + w.events && r.savedStates == w.saved
  {
    match call
    case Notification(f, bb) => r.InstNotification(f, bb);
    case AddressReport(f, bb, i) => r.UpdateVars(f, bb, i);
  }

  method ServeAll(m: Module, filter: Filter, calls: seq<HookCall>) returns (r: Replayer)
    requires WellFormed(m) && CallsInModule(m, calls)
    ensures r.Valid() && r.filter == filter && WalkAll(m, calls) == Walked(r.replayed, r.savedStates)
  {
    r := new Replayer(m, filter);
    var k := 0;
    while k < |calls|
      invariant 0 <= k <= |calls| && r.Valid() && fresh(r) && r.m == m && r.filter == filter
      invariant WalkAll(m, calls[..k]) == Walked(r.replayed, r.savedStates)
    {
      WalkAllSnoc(m, calls[..k], calls[k]);
      assert calls[..k + 1] == calls[..k] + [calls[k]];
      Serve(r, calls[k]);
      k := k + 1;
    }
    assert calls[..k] == calls;
  }

  /** The library serves the hook calls of a run. When the program is done, what has been handed to the
      analyses are the executed instructions but llvm calls, in order, that lie under an included and
      no excluded function of the real call stack. */
  method ServeRun(m: Module, filter: Filter, calls: seq<HookCall>, ghost prologue: seq<Item>, ghost targets: seq<nat>)
    returns (r: Replayer)
    requires WellFormed(m) && IsPrologue(prologue) && calls == HookCalls(m, prologue, targets)
    ensures r.Valid() && r.savedStates == Run(m, prologue, targets).saved
    ensures var c := Run(m, prologue, targets); c.done ==> r.processed == Accepted(filter, Visible(m, c.executed))
  {
    RunIsWalked(m, prologue, targets);
    r := ServeAll(m, filter, calls);
    ReplayIsIdentity(m, prologue, targets);
  }
}
