/** The run-time side: from block and address notifications the replay rebuilds the stream of
    executed instructions, keeping the points to resume at after calls on a stack. */
module Replay {
  import opened Basics
  import opened Program

  /** One instruction together with the return points of the calls it runs under. */
  datatype Event = Event(pos: Pos, frames: seq<Pos>)

  /** The include and exclude lists, each name resolved to a function of the module if there is one. */
  datatype Filter = Filter(includes: seq<Option<nat>>, excludes: seq<Option<nat>>)

  /** Some function on the call stack, the current one included, is in the list. */
  ghost predicate OnStack(list: seq<Option<nat>>, f: nat, frames: seq<Pos>) {
    Some(f) in list || exists j :: 0 <= j < |frames| && Some(frames[j].f) in list
  }

  /** What is analysed: everything under an included function (with no list, everything) that is
      not under an excluded one. */
  ghost predicate Accepts(filter: Filter, e: Event) {
    && (filter.includes == [] || OnStack(filter.includes, e.pos.f, e.frames))
    && !OnStack(filter.excludes, e.pos.f, e.frames)
  }

  ghost function Accepted(filter: Filter, events: seq<Event>): seq<Pos> {
    if events == [] then []
    else Accepted(filter, events[..|events| - 1])
         + (if Accepts(filter, events[|events| - 1]) then [events[|events| - 1].pos] else [])
  }

  lemma AcceptedSnoc(filter: Filter, events: seq<Event>, e: Event)
    ensures Accepted(filter, events + [e]) == Accepted(filter, events) + (if Accepts(filter, e) then [e.pos] else [])
  {
    assert (events + [e])[..|events|] == events;
  }

  // ----- What one walk does, as a function -------------------------------------------------

  /** The instructions a walk passes over, and the stack it leaves. */
  datatype Walked = Walked(events: seq<Event>, saved: seq<Pos>)

  ghost predicate AllInModule(m: Module, saved: seq<Pos>) {
    forall k :: 0 <= k < |saved| ==> InModule(m, saved[k])
  }

  ghost function Prepend(e: Event, w: Walked): Walked {
    Walked([e] + w.events, w.saved)
  }

  /** Walk on from `p`: stop before a load or store, behind a call into the module, or at the end of
      the block; behind a return go on at the last saved point. */
  ghost function Walk(m: Module, p: Pos, saved: seq<Pos>): (w: Walked)
    requires WellFormed(m) && InModule(m, p) && AllInModule(m, saved)
    ensures AllInModule(m, w.saved)
    decreases |saved|, |BlockAt(m, p)| - p.i
  {
    var b := BlockAt(m, p);
    if p.i >= |b| then Walked([], saved)
    else
      var next, e := p.(i := p.i + 1), Event(p, saved);
      match b[p.i]
      case Load => Walked([], saved)
      case Store => Walked([], saved)
      case Call(Llvm) => Walk(m, next, saved)
      case Call(Internal(_)) => Walked([e], saved + [next])
      case Ret =>
        if saved == [] then Walked([e], saved)
        else Prepend(e, Walk(m, saved[|saved| - 1], saved[..|saved| - 1]))
      case _ => Prepend(e, Walk(m, next, saved))
  }

  /** The address of a load or store has come in: pass over it and walk on. */
  ghost function WalkMemory(m: Module, p: Pos, saved: seq<Pos>): Walked
    requires WellFormed(m) && InModule(m, p) && AllInModule(m, saved)
  {
    Prepend(Event(p, saved), Walk(m, p.(i := p.i + 1), saved))
  }

  /** What is left of a walk whose loop stands at `p` having last passed `last`. */
  ghost function Remaining(m: Module, p: Pos, saved: seq<Pos>, last: Option<Instr>): Walked
    requires WellFormed(m) && InModule(m, p) && AllInModule(m, saved)
  {
    if last == Some(Ret) then
      if saved == [] then Walked([], saved) else Walk(m, saved[|saved| - 1], saved[..|saved| - 1])
    else Walk(m, p, saved)
  }

  /** A walk `w` that has passed `done` and has `rest` left. */
  ghost predicate Splits(w: Walked, done: seq<Event>, rest: Walked) {
    w == Walked(done + rest.events, rest.saved)
  }

  lemma PassOne(m: Module, p: Pos, saved: seq<Pos>, w: Walked, done: seq<Event>)
    requires WellFormed(m) && InModule(m, p) && AllInModule(m, saved) && p.i < |BlockAt(m, p)|
    requires Splits(w, done, Walk(m, p, saved))
    ensures var x, next, e := BlockAt(m, p)[p.i], p.(i := p.i + 1), Event(p, saved);
      if x == Call(Llvm) then Splits(w, done, Walk(m, next, saved))
      else if IsMemory(x) then w == Walked(done, saved)
      else if x.Call? && x.callee.Internal? then w == Walked(done + [e], saved + [next])
      else Splits(w, done + [e], Remaining(m, next, saved, Some(x)))
  {
    var e := Event(p, saved);
    var rest := Remaining(m, p.(i := p.i + 1), saved, Some(BlockAt(m, p)[p.i])).events;
    assert done + ([e] + rest) == (done + [e]) + rest;
    assert done + [e] + [] == done + [e] && done + [] == done;
  }

  // ----- The replay ------------------------------------------------------------------------

  class Replayer {
    const m: Module
    const filter: Filter
    var savedStates: seq<Pos>
    /** What has been handed to the analyses. */
    var processed: seq<Pos>
    /** Every instruction walked over. */
    ghost var replayed: seq<Event>

    ghost predicate Valid()
      reads this
    {
      WellFormed(m) && AllInModule(m, savedStates) && processed == Accepted(filter, replayed)
    }

    constructor (m: Module, filter: Filter)
      requires WellFormed(m)
      ensures Valid() && this.m == m && this.filter == filter && savedStates == [] && replayed == []
    {
      this.m, this.filter := m, filter;
      savedStates, processed, replayed := [], [], [];
    }

    method InIncludedFunctions(f: nat) returns (r: bool)
      ensures r <==> filter.includes == [] || OnStack(filter.includes, f, savedStates)
    {
      if |filter.includes| == 0 { return true; }
      var i := 0;
      while i < |filter.includes|
        invariant 0 <= i <= |filter.includes|
        invariant forall k :: 0 <= k < i ==> filter.includes[k] != Some(f)
      {
        if filter.includes[i] == Some(f) { return true; }
        i := i + 1;
      }
      r := InSavedStates(filter.includes);
    }

    method InExcludedFunctions(f: nat) returns (r: bool)
      ensures r <==> OnStack(filter.excludes, f, savedStates)
    {
      if |filter.excludes| == 0 { return false; }
      var i := 0;
      while i < |filter.excludes|
        invariant 0 <= i <= |filter.excludes|
        invariant forall k :: 0 <= k < i ==> filter.excludes[k] != Some(f)
      {
        if filter.excludes[i] == Some(f) { return true; }
        i := i + 1;
      }
      if |savedStates| == 0 { return false; }
      r := InSavedStates(filter.excludes);
    }

    /** Some saved point lies in a listed function. */
    method InSavedStates(list: seq<Option<nat>>) returns (r: bool)
      ensures r <==> exists j :: 0 <= j < |savedStates| && Some(savedStates[j].f) in list
    {
      var i := 0;
      while i < |list|
        invariant 0 <= i <= |list|
        invariant forall k, j :: 0 <= k < i && 0 <= j < |savedStates| ==> list[k] != Some(savedStates[j].f)
      {
        var j := 0;
        while j < |savedStates|
          invariant 0 <= j <= |savedStates|
          invariant forall l :: 0 <= l < j ==> list[i] != Some(savedStates[l].f)
        {
          if list[i] == Some(savedStates[j].f) { return true; }
          j := j + 1;
        }
        i := i + 1;
      }
      return false;
    }

    /** Pass over one instruction: hand it to the analyses unless the filter stops it. */
    method Process(p: Pos)
      requires Valid()
      modifies this`processed, this`replayed
      ensures Valid() && replayed == old(replayed) + [Event(p, savedStates)]
    {
      var included := InIncludedFunctions(p.f);
      if included {
        var excluded := InExcludedFunctions(p.f);
        if !excluded { processed := processed + [p]; }
      }
      AcceptedSnoc(filter, replayed, Event(p, savedStates));
      replayed := replayed + [Event(p, savedStates)];
    }

    /** `Process` inside a walk `w` that began when `before` was replayed and has passed `done`. */
    method ProcessNext(p: Pos, ghost before: seq<Event>, ghost w: Walked, ghost done: seq<Event>)
      returns (ghost done': seq<Event>)
      requires Valid() && InModule(m, p) && p.i < |BlockAt(m, p)|
      requires BlockAt(m, p)[p.i] != Call(Llvm) && !IsMemory(BlockAt(m, p)[p.i])
      requires Splits(w, done, Walk(m, p, savedStates)) && replayed == before + done
      modifies this`processed, this`replayed
      ensures Valid() && replayed == before + done'
      ensures var x, next := BlockAt(m, p)[p.i], p.(i := p.i + 1);
        Splits(w, done', if x.Call? && x.callee.Internal? then Walked([], savedStates + [next])
                         else Remaining(m, next, savedStates, Some(x)))
    {
      PassOne(m, p, savedStates, w, done);
      Process(p);
      done' := done + [Event(p, savedStates)];
      Regroup(before, done, [Event(p, savedStates)]);
      assert done' + [] == done';
    }

    /** Walk to the end of the block, or to where the walk has to wait. `done` is what it has passed
        over, `rest` what is left: something only behind a return. */
    method WalkBlock(start: Pos) returns (returned: bool, ghost done: seq<Event>, ghost rest: Walked)
      requires Valid() && InModule(m, start)
      modifies this
      ensures Valid() && replayed == old(replayed) + done
      ensures Splits(Walk(m, start, old(savedStates)), done, rest)
      ensures returned ==> savedStates == old(savedStates)
      ensures rest == if returned && savedStates != []
                      then Walk(m, savedStates[|savedStates| - 1], savedStates[..|savedStates| - 1])
                      else Walked([], savedStates)
    {
      var b := BlockAt(m, start);
      var last: Option<Instr> := None;
      var p := start;
      ghost var w := Walk(m, start, savedStates);
      done := [];
      while p.i < |b|
        invariant Valid() && savedStates == old(savedStates) && replayed == old(replayed) + done
        invariant p.f == start.f && p.bb == start.bb && (last == Some(Ret) ==> p.i >= |b|)
        invariant Splits(w, done, Remaining(m, p, savedStates, last))
        decreases |b| - p.i
      {
        var x := b[p.i];
        if x == Call(Llvm) {
          p := p.(i := p.i + 1);
          continue;
        }
        if IsMemory(x) { break; }
        done := ProcessNext(p, old(replayed), w, done);
        last := Some(x);
        p := p.(i := p.i + 1);
        if x.Call? && x.callee.Internal? {
          savedStates := savedStates + [p];
          return false, done, Walked([], savedStates);
        }
      }
      returned := last == Some(Ret);
      rest := Remaining(m, p, savedStates, last);
    }

    /** The resumable walk. It recurs only behind a return, with one saved state fewer. */
    method IterInstructions(start: Pos)
      requires Valid() && InModule(m, start)
      modifies this
      ensures Valid()
      ensures var w := Walk(m, start, old(savedStates)); replayed == old(replayed) + w.events && savedStates == w.saved
      decreases |savedStates|
    {
      ghost var before, w := replayed, Walk(m, start, savedStates);
      var returned, done, rest := WalkBlock(start);
      if |savedStates| > 0 && returned {
        var next := savedStates[|savedStates| - 1];
        savedStates := savedStates[..|savedStates| - 1];
        IterInstructions(next);
      }
      Regroup(before, done, rest.events);
    }

    /** A block has been entered. */
    method InstNotification(f: nat, bb: nat)
      requires Valid() && InModule(m, Pos(f, bb, 0))
      modifies this
      ensures Valid()
      ensures var w := Walk(m, Pos(f, bb, 0), old(savedStates)); replayed == old(replayed) + w.events && savedStates == w.saved
    {
      IterInstructions(Pos(f, bb, 0));
    }

    /** A load or store has been executed: its address is known now, so the walk goes on with it. */
    method UpdateVars(f: nat, bb: nat, i: nat)
      requires Valid() && InModule(m, Pos(f, bb, i))
      modifies this
      ensures Valid()
      ensures var w := WalkMemory(m, Pos(f, bb, i), old(savedStates)); replayed == old(replayed) + w.events && savedStates == w.saved
    {
      var p := Pos(f, bb, i);
      Process(p);
      p := p.(i := p.i + 1);
      if p.i < |BlockAt(m, p)| {
        IterInstructions(p);
      }
    }
  }
}
