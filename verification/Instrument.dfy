/** The instrumentation pass: it inserts a notification before the first instruction of a block that
    is not a phi, an address report after every load and store, and the final dump before the
    returns of `main`. */
module Instrument {
  import opened Basics
  import opened Program

  /** `Setup` and `InitLibrary` are the calls already placed at the top of `main`. */
  datatype Item =
    | Original(instr: Instr)
    | Setup
    | InitLibrary
    | Notify(f: nat, bb: nat)
    | UpdateVars(f: nat, bb: nat, i: nat)
    | EndApp

  function Originals(b: Block): seq<Item> {
    seq(|b|, i requires 0 <= i < |b| => Original(b[i]))
  }

  /** The calls at the top of `main`: at least one, the last one being `init_libanalysis`. */
  ghost predicate IsPrologue(items: seq<Item>) {
    && |items| >= 2 && items[|items| - 1] == InitLibrary
    && forall k :: 0 <= k < |items| - 1 ==> items[k] == Setup
  }

  /** One instruction with its hooks. A block notifies in front of its first instruction that is not
      a phi; `notified` says that it has done so. */
  function HookedInstr(b: Block, f: nat, bb: nat, i: nat, notified: bool, inMain: bool): seq<Item>
    requires i < |b|
  {
    (if notified || b[i].Phi? then [] else [Notify(f, bb)])
    + (if inMain && b[i].Ret? then [EndApp] else [])
    + [Original(b[i])]
    + (if IsMemory(b[i]) then [UpdateVars(f, bb, i)] else [])
  }

  /** The hooked form of a block from its `i`-th instruction on. */
  function Hooked(b: Block, f: nat, bb: nat, i: nat, notified: bool, inMain: bool): seq<Item>
    decreases |b| - i
  {
    if i >= |b| then []
    else HookedInstr(b, f, bb, i, notified, inMain) + Hooked(b, f, bb, i + 1, notified || !b[i].Phi?, inMain)
  }

  predicate IsHook(x: Item) {
    x.Notify? || x.UpdateVars? || x.EndApp?
  }

  /** The items that were there before the pass. */
  function WithoutHooks(items: seq<Item>): seq<Item> {
    if items == [] then []
    else (if IsHook(items[0]) then [] else [items[0]]) + WithoutHooks(items[1..])
  }

  lemma {:induction false} WithoutConcat(a: seq<Item>, c: seq<Item>)
    ensures WithoutHooks(a + c) == WithoutHooks(a) + WithoutHooks(c)
    decreases |a|
  {
    if a == [] {
      assert a + c == c;
    } else {
      WithoutConcat(a[1..], c);
      assert (a + c)[1..] == a[1..] + c;
    }
  }

  lemma {:induction false} NoHooks(items: seq<Item>)
    requires forall k :: 0 <= k < |items| ==> !IsHook(items[k])
    ensures WithoutHooks(items) == items
    decreases |items|
  {
    if items != [] { NoHooks(items[1..]); }
  }

  lemma HookedInstrErases(b: Block, f: nat, bb: nat, i: nat, notified: bool, inMain: bool)
    requires i < |b|
    ensures WithoutHooks(HookedInstr(b, f, bb, i, notified, inMain)) == [Original(b[i])]
  {
    var note := if notified || b[i].Phi? then [] else [Notify(f, bb)];
    var pre := if inMain && b[i].Ret? then [EndApp] else [];
    var post := if IsMemory(b[i]) then [UpdateVars(f, bb, i)] else [];
    WithoutConcat(note + pre + [Original(b[i])], post);
    WithoutConcat(note + pre, [Original(b[i])]);
    WithoutConcat(note, pre);
  }

  /** The pass changes no instruction: without its hooks a hooked block is the block. */
  lemma {:induction false} HookedErases(b: Block, f: nat, bb: nat, i: nat, notified: bool, inMain: bool)
    requires i <= |b|
    ensures WithoutHooks(Hooked(b, f, bb, i, notified, inMain)) == Originals(b)[i..]
    decreases |b| - i
  {
    if i < |b| {
      HookedErases(b, f, bb, i + 1, notified || !b[i].Phi?, inMain);
      HookedInstrErases(b, f, bb, i, notified, inMain);
      WithoutConcat(HookedInstr(b, f, bb, i, notified, inMain), Hooked(b, f, bb, i + 1, notified || !b[i].Phi?, inMain));
    }
  }

  /** Insert into an instruction list. */
  function InsertAt(items: seq<Item>, k: nat, x: Item): (r: seq<Item>)
    requires k <= |items|
    ensures |r| == |items| + 1
    ensures r[..k + 1] == items[..k] + [x] && r[k + 1..] == items[k..]
  {
    items[..k] + [x] + items[k..]
  }

  /** Put the hooks of one instruction around it, and step behind them. */
  method HookOne(items: seq<Item>, k: nat, b: Block, f: nat, bb: nat, i: nat, notified: bool, inMain: bool)
    returns (items': seq<Item>, k': nat)
    requires k < |items| && i < |b| && items[k] == Original(b[i])
    ensures k' <= |items'| && items'[k'..] == items[k + 1..]
    ensures items'[..k'] == items[..k] + HookedInstr(b, f, bb, i, notified, inMain)
  {
    items', k' := items, k;
    var x := items'[k'].instr;
    if x.Phi? {
      k' := k' + 1;
      return;
    }
    if !notified {
      items' := InsertAt(items', k', Notify(f, bb));
      k' := k' + 1;
    }
    ghost var before := items[..k] + (if notified then [] else [Notify(f, bb)]);
    assert items'[..k'] == before && items'[k'..] == items[k..];
    assert items'[k'] == items'[k'..][0] == items[k..][0] == items[k];
    items', k' := HookAround(items', k', x, f, bb, i, inMain);
  }

  method HookAround(items: seq<Item>, k: nat, x: Instr, f: nat, bb: nat, i: nat, inMain: bool)
    returns (items': seq<Item>, k': nat)
    requires k < |items| && items[k] == Original(x)
    ensures k' <= |items'| && items'[k'..] == items[k + 1..]
    ensures items'[..k'] == items[..k] + (if inMain && x.Ret? then [EndApp] else []) + [Original(x)]
                            + (if IsMemory(x) then [UpdateVars(f, bb, i)] else [])
  {
    items', k' := items, k;
    if IsMemory(x) {
      items' := InsertAt(items', k' + 1, UpdateVars(f, bb, i));
      k' := k' + 1;
    }
    if inMain && x.Ret? {
      items' := InsertAt(items', k', EndApp);
      k' := k' + 1;
    }
    k' := k' + 1;
  }

  /** The walk over one block, inserting as it goes. The prologue, calls already placed in front of
      the block's own instructions, is there only in the entry block of `main`. */
  method InstrumentBlock(b: Block, f: nat, bb: nat, inMain: bool, prologue: seq<Item>) returns (items: seq<Item>)
    requires prologue == [] || IsPrologue(prologue)
    ensures items == prologue + Hooked(b, f, bb, 0, false, inMain)
  {
    items := prologue + Originals(b);
    var k: nat := 0;
    if prologue != [] {
      k := k + 1;
      while items[k] != InitLibrary
        invariant 1 <= k < |prologue|
        decreases |prologue| - k
      {
        k := k + 1;
      }
      k := k + 1;
    }
    assert items[..k] == prologue && items[k..] == Originals(b)[0..];
    var i: nat := 0;
    var notified := false;
    ghost var all := prologue + Hooked(b, f, bb, 0, false, inMain);
    while k < |items|
      invariant i <= |b| && k <= |items|
      invariant items[k..] == Originals(b)[i..]
      invariant items[..k] + Hooked(b, f, bb, i, notified, inMain) == all
      decreases |b| - i
    {
      assert items[k] == items[k..][0] == Original(b[i]) && items[k + 1..] == items[k..][1..];
      var isPhi := items[k].instr.Phi?;
      ghost var before := items[..k];
      items, k := HookOne(items, k, b, f, bb, i, notified, inMain);
      Regroup(before, HookedInstr(b, f, bb, i, notified, inMain), Hooked(b, f, bb, i + 1, notified || !isPhi, inMain));
      i, notified := i + 1, notified || !isPhi;
    }
    assert items[..k] == items;
  }

  method InstrumentFunction(m: Module, f: nat, prologue: seq<Item>) returns (blocks: seq<seq<Item>>)
    requires IsPrologue(prologue) && f < |m.functions|
    ensures blocks == HookedFunction(m, f, prologue)
  {
    blocks := [];
    var bb: nat := 0;
    while bb < |m.functions[f]|
      invariant bb <= |m.functions[f]| && |blocks| == bb
      invariant forall c :: 0 <= c < bb ==> blocks[c] == HookedBlock(m, f, c, prologue)
    {
      var items := InstrumentBlock(m.functions[f][bb], f, bb, f == m.main, if f == m.main && bb == 0 then prologue else []);
      blocks := blocks + [items];
      bb := bb + 1;
    }
  }

  /** The pass: every block of every function, with the indices counted along; declarations have no
      blocks but count as functions. */
  method RunOnModule(m: Module, prologue: seq<Item>) returns (hooked: seq<seq<seq<Item>>>)
    requires IsPrologue(prologue)
    ensures hooked == HookedModule(m, prologue)
  {
    hooked := [];
    var f: nat := 0;
    while f < |m.functions|
      invariant f <= |m.functions| && |hooked| == f
      invariant forall g :: 0 <= g < f ==> hooked[g] == HookedFunction(m, g, prologue)
    {
      var blocks := InstrumentFunction(m, f, prologue);
      hooked := hooked + [blocks];
      f := f + 1;
    }
  }

  function HookedBlock(m: Module, f: nat, bb: nat, prologue: seq<Item>): seq<Item>
    requires f < |m.functions| && bb < |m.functions[f]|
  {
    (if f == m.main && bb == 0 then prologue else []) + Hooked(m.functions[f][bb], f, bb, 0, false, f == m.main)
  }

  function HookedFunction(m: Module, f: nat, prologue: seq<Item>): seq<seq<Item>>
    requires f < |m.functions|
  {
    seq(|m.functions[f]|, bb requires 0 <= bb < |m.functions[f]| => HookedBlock(m, f, bb, prologue))
  }

  function HookedModule(m: Module, prologue: seq<Item>): seq<seq<seq<Item>>> {
    seq(|m.functions|, f requires 0 <= f < |m.functions| => HookedFunction(m, f, prologue))
  }

  // ----- What the pass leaves, and where the dumps are ---------------------------------------

  /** The pass only inserts hooks: without them every block is what it was, the entry block of `main`
      behind the calls at its top. */
  lemma ModuleErases(m: Module, prologue: seq<Item>, f: nat, bb: nat)
    requires IsPrologue(prologue) && f < |m.functions| && bb < |m.functions[f]|
    ensures WithoutHooks(HookedModule(m, prologue)[f][bb])
            == if f == m.main && bb == 0 then prologue + Originals(m.functions[f][bb]) else Originals(m.functions[f][bb])
  {
    var items := Hooked(m.functions[f][bb], f, bb, 0, false, f == m.main);
    HookedErases(m.functions[f][bb], f, bb, 0, false, f == m.main);
    NoHooks(prologue);
    WithoutConcat(prologue, items);
    WithoutConcat([], items);
  }

  ghost predicate DumpBeforeReturn(items: seq<Item>, k: nat, inMain: bool)
    requires k < |items|
  {
    inMain && k + 1 < |items| && items[k + 1] == Original(Ret)
  }

  ghost predicate ReturnBehindDump(items: seq<Item>, k: nat)
    requires k < |items|
  {
    k > 0 && items[k - 1] == EndApp
  }

  /** In `main` the item in front of every return is a dump; there are no other dumps. */
  ghost predicate DumpsPlaced(items: seq<Item>, inMain: bool) {
    && (forall k :: 0 <= k < |items| && items[k] == EndApp ==> DumpBeforeReturn(items, k, inMain))
    && (inMain ==> forall k :: 0 <= k < |items| && items[k] == Original(Ret) ==> ReturnBehindDump(items, k))
  }

  lemma DumpsConcat(a: seq<Item>, c: seq<Item>, inMain: bool)
    requires DumpsPlaced(a, inMain) && DumpsPlaced(c, inMain)
    ensures DumpsPlaced(a + c, inMain)
  {
    var r := a + c;
    forall k | 0 <= k < |r| && r[k] == EndApp ensures DumpBeforeReturn(r, k, inMain) {
      if k < |a| { assert DumpBeforeReturn(a, k, inMain); } else { assert DumpBeforeReturn(c, k - |a|, inMain); }
    }
    if inMain {
      forall k | 0 <= k < |r| && r[k] == Original(Ret) ensures ReturnBehindDump(r, k) {
        if k < |a| { assert ReturnBehindDump(a, k); } else { assert ReturnBehindDump(c, k - |a|); }
      }
    }
  }

  lemma InstrDumps(b: Block, f: nat, bb: nat, i: nat, notified: bool, inMain: bool)
    requires i < |b|
    ensures DumpsPlaced(HookedInstr(b, f, bb, i, notified, inMain), inMain)
  {
    var note := if notified || b[i].Phi? then [] else [Notify(f, bb)];
    var pre := if inMain && b[i].Ret? then [EndApp] else [];
    var post := if IsMemory(b[i]) then [UpdateVars(f, bb, i)] else [];
    var core := pre + [Original(b[i])];
    assert DumpsPlaced(core, inMain) by {
      forall k | 0 <= k < |core| && core[k] == EndApp ensures DumpBeforeReturn(core, k, inMain) {
      }
      if inMain {
        forall k | 0 <= k < |core| && core[k] == Original(Ret) ensures ReturnBehindDump(core, k) {
        }
      }
    }
    DumpsConcat(note, core, inMain);
    DumpsConcat(note + core, post, inMain);
    assert note + core + post == HookedInstr(b, f, bb, i, notified, inMain);
  }

  lemma {:induction false} HookedDumps(b: Block, f: nat, bb: nat, i: nat, notified: bool, inMain: bool)
    requires i <= |b|
    ensures DumpsPlaced(Hooked(b, f, bb, i, notified, inMain), inMain)
    decreases |b| - i
  {
    if i < |b| {
      InstrDumps(b, f, bb, i, notified, inMain);
      HookedDumps(b, f, bb, i + 1, notified || !b[i].Phi?, inMain);
      DumpsConcat(HookedInstr(b, f, bb, i, notified, inMain), Hooked(b, f, bb, i + 1, notified || !b[i].Phi?, inMain), inMain);
    }
  }

  /** The pass puts a dump in front of every return of `main`, whatever its block, and nowhere else. */
  lemma ModuleDumps(m: Module, prologue: seq<Item>, f: nat, bb: nat)
    requires IsPrologue(prologue) && f < |m.functions| && bb < |m.functions[f]|
    ensures DumpsPlaced(HookedModule(m, prologue)[f][bb], f == m.main)
  {
    HookedDumps(m.functions[f][bb], f, bb, 0, false, f == m.main);
    DumpsConcat(if f == m.main && bb == 0 then prologue else [], Hooked(m.functions[f][bb], f, bb, 0, false, f == m.main), f == m.main);
  }
}
