/** The statistics are dumped once in every run, at its end. */
module FinalDump {
  import opened Basics
  import opened Program
  import opened Instrument
  import opened Replay
  import opened ReplayRuns

  /** The item that the next step executes, if any. */
  ghost function NextItem(c: Config): seq<Item> {
    if c.done || c.here.rest == [] then [] else [c.here.rest[0]]
  }

  /** All items executed in a run: instructions and hooks. */
  ghost function ItemsOf(m: Module, prologue: seq<Item>, targets: seq<nat>): seq<Item>
    requires WellFormed(m)
  {
    if targets == [] then []
    else
      var before := targets[..|targets| - 1];
      ItemsOf(m, prologue, before) + NextItem(Run(m, prologue, before))
  }

  // ----- What is still to come in a block --------------------------------------------------

  /** The rest of a block: a return of `main` that is not the first item has its dump in front of it. */
  ghost predicate RestPlaced(items: seq<Item>, inMain: bool) {
    && (forall k :: 0 <= k < |items| && items[k] == EndApp ==> DumpBeforeReturn(items, k, inMain))
    && (inMain ==> forall k :: 0 < k < |items| && items[k] == Original(Ret) ==> ReturnBehindDump(items, k))
  }

  lemma RestOfRest(items: seq<Item>, inMain: bool)
    requires items != [] && RestPlaced(items, inMain)
    ensures RestPlaced(items[1..], inMain)
    ensures inMain && |items| > 1 && items[1] == Original(Ret) ==> items[0] == EndApp
  {
    var r := items[1..];
    forall k | 0 <= k < |r| && r[k] == EndApp ensures DumpBeforeReturn(r, k, inMain) {
      assert DumpBeforeReturn(items, k + 1, inMain);
    }
    if inMain {
      forall k | 0 < k < |r| && r[k] == Original(Ret) ensures ReturnBehindDump(r, k) {
        assert ReturnBehindDump(items, k + 1);
      }
      if |items| > 1 && items[1] == Original(Ret) { assert ReturnBehindDump(items, 1); }
    }
  }

  /** A return of `main` is about to be executed. */
  ghost predicate AtLastReturn(m: Module, c: Config) {
    c.here.f == m.main && c.here.rest != [] && c.here.rest[0] == Original(Ret)
  }

  /** `main` runs at the bottom of the stack and nowhere else. */
  ghost predicate MainAtBottom(m: Module, c: Config) {
    && (c.stack == [] <==> c.here.f == m.main)
    && forall k :: 0 <= k < |c.stack| ==> (k == 0 <==> c.stack[k].f == m.main)
  }

  ghost predicate AllPlaced(m: Module, c: Config) {
    RestPlaced(c.here.rest, c.here.f == m.main) && MainAtBottom(m, c)
  }

  lemma EntryPlaced(m: Module, prologue: seq<Item>, f: nat, bb: nat)
    requires IsPrologue(prologue) && f < |m.functions| && bb < |m.functions[f]|
    ensures var rest := Entry(m, prologue, f, bb).rest;
      RestPlaced(rest, f == m.main) && (rest != [] && rest[0] == Original(Ret) ==> f != m.main)
  {
    ModuleDumps(m, prologue, f, bb);
  }

  lemma WaitingPlaced(m: Module, fr: Frame)
    requires FrameOk(m, fr)
    ensures RestPlaced(fr.rest, fr.f == m.main) && (fr.rest != [] && fr.rest[0] == Original(Ret) ==> fr.f != m.main)
  {
    HookedDumps(BlockAt(m, PosOf(fr)), fr.f, fr.bb, fr.i, true, fr.f == m.main);
  }

  // ----- One step --------------------------------------------------------------------------

  /** What comes next behind a step that has executed the item `x`. */
  ghost predicate Goes(m: Module, c: Config, x: Item, c': Config) {
    if c'.done then x == Original(Ret) && c.stack == [] && c.here.f == m.main
    else AllPlaced(m, c') && (AtLastReturn(m, c') ==> x == EndApp && c'.stack == [])
  }

  lemma ReturnGoes(m: Module, prologue: seq<Item>, c: Config, target: nat)
    requires InStep(m, c) && !c.done && AllPlaced(m, c) && c.here.rest != [] && c.here.rest[0] == Original(Ret)
    ensures Goes(m, c, Original(Ret), Execute(m, prologue, c, Ret, target))
  {
    if c.stack != [] {
      WaitingPlaced(m, c.stack[|c.stack| - 1]);
    }
  }

  lemma CallGoes(m: Module, prologue: seq<Item>, c: Config, g: nat, target: nat)
    requires InStep(m, c) && IsPrologue(prologue) && !c.done && AllPlaced(m, c)
    requires c.here.rest != [] && c.here.rest[0] == Original(Call(Internal(g)))
    ensures Goes(m, c, c.here.rest[0], Execute(m, prologue, c, Call(Internal(g)), target))
  {
    NextIsHere(m, c, Call(Internal(g)));
    assert WellFormedBlock(m, BlockAt(m, PosOf(c.here)));
    EntryPlaced(m, prologue, g, 0);
  }

  lemma BranchGoes(m: Module, prologue: seq<Item>, c: Config, target: nat)
    requires InStep(m, c) && IsPrologue(prologue) && !c.done && AllPlaced(m, c)
    requires c.here.rest != [] && c.here.rest[0] == Original(Branch)
    ensures Goes(m, c, Original(Branch), Execute(m, prologue, c, Branch, target))
  {
    EntryPlaced(m, prologue, c.here.f, target % |m.functions[c.here.f]|);
  }

  lemma StaysGoes(m: Module, c: Config, x: Item, c': Config)
    requires !c.done && AllPlaced(m, c) && c.here.rest != [] && c.here.rest[0] == x
    requires !c'.done && c'.stack == c.stack && c'.here.f == c.here.f && c'.here.rest == c.here.rest[1..]
    ensures Goes(m, c, x, c')
  {
    RestOfRest(c.here.rest, c.here.f == m.main);
  }

  lemma StepGoes(m: Module, prologue: seq<Item>, c: Config, target: nat)
    requires InStep(m, c) && IsPrologue(prologue) && !c.done && AllPlaced(m, c) && c.here.rest != []
    ensures Goes(m, c, c.here.rest[0], Step(m, prologue, c, target))
  {
    match c.here.rest[0]
    case Original(Ret) => ReturnGoes(m, prologue, c, target);
    case Original(Branch) => BranchGoes(m, prologue, c, target);
    case Original(Call(Internal(g))) => CallGoes(m, prologue, c, g, target);
    case _ => StaysGoes(m, c, c.here.rest[0], Step(m, prologue, c, target));
  }

  lemma SomethingComes(m: Module, c: Config)
    requires InStep(m, c) && !c.done
    ensures c.here.rest != []
  {
    var b := BlockAt(m, PosOf(c.here));
    assert WellFormedBlock(m, b);
    assert IsTerminator(b[|b| - 1]);
  }

  // ----- Whole runs ------------------------------------------------------------------------

  /** No dump so far; or one, just now, and the return of `main` comes next; or the program is done and
      the dump and that return were the last two items. */
  ghost predicate DumpedOnce(m: Module, c: Config, items: seq<Item>) {
    var n := |items|;
    if c.done then n >= 2 && items[n - 2] == EndApp && items[n - 1] == Original(Ret) && EndApp !in items[..n - 2]
    else if AtLastReturn(m, c) then n >= 1 && c.stack == [] && items[n - 1] == EndApp && EndApp !in items[..n - 1]
    else EndApp !in items
  }

  lemma DumpedStep(m: Module, c: Config, items: seq<Item>, x: Item, c': Config)
    requires !c.done && AllPlaced(m, c) && c.here.rest != [] && x == c.here.rest[0]
    requires DumpedOnce(m, c, items) && Goes(m, c, x, c')
    requires AtLastReturn(m, c) ==> c'.done
    requires x == EndApp ==> !c'.done && AtLastReturn(m, c')
    ensures DumpedOnce(m, c', items + [x])
  {
    var items' := items + [x];
    assert items'[..|items|] == items;
    if c'.done {
      assert items'[..|items'| - 2] == items[..|items| - 1];
    }
  }

  lemma LastReturnEnds(m: Module, prologue: seq<Item>, c: Config, target: nat)
    requires InStep(m, c) && !c.done && AllPlaced(m, c) && c.here.rest != []
    ensures AtLastReturn(m, c) ==> Step(m, prologue, c, target).done
    ensures c.here.rest[0] == EndApp ==> var c' := Step(m, prologue, c, target); !c'.done && AtLastReturn(m, c')
  {
    if c.here.rest[0] == EndApp { assert DumpBeforeReturn(c.here.rest, 0, c.here.f == m.main); }
  }

  lemma {:induction false} RunDumpsOnce(m: Module, prologue: seq<Item>, targets: seq<nat>)
    requires WellFormed(m) && IsPrologue(prologue)
    ensures var c := Run(m, prologue, targets);
      (!c.done ==> AllPlaced(m, c)) && DumpedOnce(m, c, ItemsOf(m, prologue, targets))
    decreases |targets|
  {
    if targets == [] {
      EntryPlaced(m, prologue, m.main, 0);
    } else {
      var before, target := targets[..|targets| - 1], targets[|targets| - 1];
      var c, items := Run(m, prologue, before), ItemsOf(m, prologue, before);
      RunDumpsOnce(m, prologue, before);
      RunInStep(m, prologue, before);
      if c.done {
        assert items + [] == items;
      } else {
        SomethingComes(m, c);
        StepGoes(m, prologue, c, target);
        LastReturnEnds(m, prologue, c, target);
        DumpedStep(m, c, items, c.here.rest[0], Step(m, prologue, c, target));
      }
    }
  }

  /** Whatever branches are taken: a program that is done has dumped its statistics exactly once, right
      before the return that ended it; a program that is not has not, unless that return comes next. */
  lemma DumpsExactlyOnce(m: Module, prologue: seq<Item>, targets: seq<nat>)
    requires WellFormed(m) && IsPrologue(prologue)
    ensures var c, items := Run(m, prologue, targets), ItemsOf(m, prologue, targets);
      if c.done then
        exists before :: items == before + [EndApp, Original(Ret)] && EndApp !in before
      else EndApp in items ==>
        AtLastReturn(m, c) && c.stack == [] && exists before :: items == before + [EndApp] && EndApp !in before
  {
    var c, items := Run(m, prologue, targets), ItemsOf(m, prologue, targets);
    RunDumpsOnce(m, prologue, targets);
    if c.done {
      assert items == items[..|items| - 2] + [EndApp, Original(Ret)];
    } else if EndApp in items {
      assert items == items[..|items| - 1] + [EndApp];
    }
  }
}
