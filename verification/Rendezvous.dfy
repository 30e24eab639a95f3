/** Blocking point-to-point calls in every interleaving: a send and a receive meet. */
module Rendezvous {
  import opened MpiStore
  import opened MpiMatching

  datatype Op =
    | Send(ch: Channel, inst: nat, dif: nat)
    | Recv(ch: Channel, inst: nat, dif: nat)
    | Sendrecv(to: Channel, source: Channel, inst: nat, dif: nat)

  /** A call first posts and then looks for the other side until it is there. */
  function ActionsOf(op: Op): seq<Action> {
    match op
    case Send(ch, inst, dif) => [Post(Sends, ch, inst, dif), Take(Recvs, ch)]
    case Recv(ch, inst, dif) => [Post(Recvs, ch, inst, dif), Take(Sends, ch)]
    case Sendrecv(to, source, inst, dif) =>
      [Post(Sends, to, inst, dif), Post(Recvs, source, inst, dif), Take(Recvs, to), Take(Sends, source)]
  }

  function Script(ops: seq<Op>): seq<Action> {
    if ops == [] then [] else Script(ops[..|ops| - 1]) + ActionsOf(ops[|ops| - 1])
  }

  function ScriptsOf(programs: seq<seq<Op>>): Scripts {
    seq(|programs|, p requires 0 <= p < |programs| => Script(programs[p]))
  }

  /** Each rank sends as itself and receives for itself. */
  predicate IsOpOf(p: nat, op: Op) {
    match op
    case Send(ch, _, _) => ch.sender == p
    case Recv(ch, _, _) => ch.receiver == p
    case Sendrecv(to, source, _, _) => to.sender == p && source.receiver == p
  }

  ghost predicate WellFormed(programs: seq<seq<Op>>) {
    forall p, k :: 0 <= p < |programs| && 0 <= k < |programs[p]| ==> IsOpOf(p, programs[p][k])
  }

  lemma {:induction false} ScriptOwned(p: nat, ops: seq<Op>)
    requires forall k :: 0 <= k < |ops| ==> IsOpOf(p, ops[k])
    ensures forall i :: 0 <= i < |Script(ops)| ==> Owns(p, Script(ops)[i])
    decreases |ops|
  {
    if ops != [] {
      var last := ActionsOf(ops[|ops| - 1]);
      ScriptOwned(p, ops[..|ops| - 1]);
      assert forall i :: 0 <= i < |last| ==> Owns(p, last[i]);
    }
  }

  lemma ProgramsOwned(programs: seq<seq<Op>>)
    requires WellFormed(programs)
    ensures Owned(ScriptsOf(programs))
  {
    forall p | 0 <= p < |programs|
      ensures forall i :: 0 <= i < |Script(programs[p])| ==> Owns(p, Script(programs[p])[i])
    {
      ScriptOwned(p, programs[p]);
    }
  }

  // ----- One rank --------------------------------------------------------------------------

  /** Posted on one side of a channel and not yet answered from the other. */
  function Unanswered(actions: seq<Action>, side: Side, ch: Channel): int {
    |Posts(actions, side, ch)| - Takes(actions, Other(side), ch)
  }

  lemma UnansweredConcat(a: seq<Action>, b: seq<Action>, side: Side, ch: Channel)
    ensures Unanswered(a + b, side, ch) == Unanswered(a, side, ch) + Unanswered(b, side, ch)
  {
    CountsConcat(a, b, side, ch);
    CountsConcat(a, b, Other(side), ch);
  }

  function Change(a: Action, side: Side, ch: Channel): int {
    |NewPost(a, side, ch)| - NewTake(a, Other(side), ch)
  }

  lemma UnansweredPrefix(actions: seq<Action>, k: nat, side: Side, ch: Channel)
    requires k < |actions|
    ensures Unanswered(actions[..k + 1], side, ch) == Unanswered(actions[..k], side, ch) + Change(actions[k], side, ch)
  {
    PostsSnoc(actions[..k], actions[k], side, ch);
    PostsSnoc(actions[..k], actions[k], Other(side), ch);
    assert actions[..k + 1] == actions[..k] + [actions[k]];
  }

  /** Each call opens once, and closes later what it has opened. */
  lemma OpChanges(op: Op, side: Side, ch: Channel)
    ensures var a, n := ActionsOf(op), if side.Sends? then 0 else 1;
      if op.Sendrecv? then
        && |a| == 4 && Change(a[1 - n], side, ch) == Change(a[3 - n], side, ch) == 0
        && 0 <= Change(a[n], side, ch) <= 1 && Change(a[n], side, ch) == -Change(a[2 + n], side, ch)
      else
        |a| == 2 && 0 <= Change(a[0], side, ch) <= 1 && Change(a[0], side, ch) == -Change(a[1], side, ch)
  {
  }

  lemma OpUnanswered(op: Op, k: nat, side: Side, ch: Channel)
    requires k <= |ActionsOf(op)|
    ensures 0 <= Unanswered(ActionsOf(op)[..k], side, ch) <= 1
    ensures k == |ActionsOf(op)| ==> Unanswered(ActionsOf(op)[..k], side, ch) == 0
  {
    var a := ActionsOf(op);
    OpChanges(op, side, ch);
    PrefixSums(a, k, side, ch);
  }

  lemma PrefixSums(a: seq<Action>, k: nat, side: Side, ch: Channel)
    requires k <= |a| <= 4
    ensures var u := Unanswered(a[..k], side, ch);
      && (k == 0 ==> u == 0)
      && (k == 1 ==> u == Change(a[0], side, ch))
      && (k == 2 ==> u == Change(a[0], side, ch) + Change(a[1], side, ch))
      && (k == 3 ==> u == Change(a[0], side, ch) + Change(a[1], side, ch) + Change(a[2], side, ch))
      && (k == 4 ==> u == Change(a[0], side, ch) + Change(a[1], side, ch) + Change(a[2], side, ch) + Change(a[3], side, ch))
    decreases k
  {
    if k > 0 {
      PrefixSums(a, k - 1, side, ch);
      UnansweredPrefix(a, k - 1, side, ch);
    }
  }

  lemma OpenTail(front: seq<Action>, op: Op, k: nat, side: Side, ch: Channel)
    requires Unanswered(front, side, ch) == 0 && |front| <= k <= |front| + |ActionsOf(op)|
    ensures 0 <= Unanswered((front + ActionsOf(op))[..k], side, ch) <= 1
    ensures k == |front| + |ActionsOf(op)| ==> Unanswered((front + ActionsOf(op))[..k], side, ch) == 0
  {
    var last := ActionsOf(op)[..k - |front|];
    OpUnanswered(op, k - |front|, side, ch);
    assert (front + ActionsOf(op))[..k] == front + last;
    UnansweredConcat(front, last, side, ch);
  }

  /** A rank has at most one call open on a side of a channel. */
  lemma {:induction false} OneOpenCall(ops: seq<Op>, k: nat, side: Side, ch: Channel)
    requires k <= |Script(ops)|
    ensures 0 <= Unanswered(Script(ops)[..k], side, ch) <= 1
    ensures k == |Script(ops)| ==> Unanswered(Script(ops)[..k], side, ch) == 0
    decreases |ops|
  {
    if ops != [] {
      var front, op := Script(ops[..|ops| - 1]), ops[|ops| - 1];
      if k <= |front| {
        OneOpenCall(ops[..|ops| - 1], k, side, ch);
        assert (front + ActionsOf(op))[..k] == front[..k];
      } else {
        OneOpenCall(ops[..|ops| - 1], |front|, side, ch);
        assert front[..|front|] == front;
        OpenTail(front, op, k, side, ch);
      }
    }
  }

  // ----- Two ranks -------------------------------------------------------------------------

  /** Who posts on a side takes from the other, and has at most one call open. */
  lemma OpenCalls(programs: seq<seq<Op>>, schedule: seq<nat>, side: Side, ch: Channel)
    requires WellFormed(programs)
    ensures var scripts := ScriptsOf(programs);
      var c := Run(scripts, schedule);
      var open := |Posted(scripts, c, side, ch)| - Taken(scripts, c, Other(side), ch);
      && 0 <= open <= 1
      && (Waits(scripts, c, Poster(side, ch), Other(side), ch) ==> open == 1)
      && (Poster(side, ch) < |scripts| && !Active(scripts, c, Poster(side, ch)) ==> open == 0)
      && (Poster(side, ch) >= |scripts| ==> open == 0)
  {
    var scripts, p := ScriptsOf(programs), Poster(side, ch);
    var c := Run(scripts, schedule);
    ProgramsOwned(programs);
    ChannelsAreQueues(scripts, schedule, side, ch);
    if p < |scripts| {
      OneOpenCall(programs[p], c.done[p], side, ch);
      assert Past(scripts, c, p) == Script(programs[p])[..c.done[p]];
      if Waits(scripts, c, p, Other(side), ch) {
        OneOpenCall(programs[p], c.done[p] + 1, side, ch);
        UnansweredPrefix(Script(programs[p]), c.done[p], side, ch);
      }
    }
  }

  /** In every interleaving, on every channel: posted sends and receives differ by at most one; the
      sends that have returned are at most the receives posted, and the other way round; and what is
      open on either side is one call at most. */
  lemma SendsMeetReceives(programs: seq<seq<Op>>, schedule: seq<nat>, ch: Channel)
    requires WellFormed(programs)
    ensures var scripts := ScriptsOf(programs);
      var c := Run(scripts, schedule);
      var sends, recvs := |Posted(scripts, c, Sends, ch)|, |Posted(scripts, c, Recvs, ch)|;
      var sent, received := Taken(scripts, c, Recvs, ch), Taken(scripts, c, Sends, ch);
      && sends <= recvs + 1 && recvs <= sends + 1
      && sends - 1 <= sent <= recvs && recvs - 1 <= received <= sends
  {
    var scripts := ScriptsOf(programs);
    ProgramsOwned(programs);
    ChannelsAreQueues(scripts, schedule, Sends, ch);
    ChannelsAreQueues(scripts, schedule, Recvs, ch);
    OpenCalls(programs, schedule, Sends, ch);
    OpenCalls(programs, schedule, Recvs, ch);
  }

  /** When both ends of a channel wait for each other, one of them finds its entry, and if they are
      in the same call number, both do. */
  lemma NeverStuck(programs: seq<seq<Op>>, schedule: seq<nat>, ch: Channel)
    requires WellFormed(programs)
    requires var scripts := ScriptsOf(programs);
      var c := Run(scripts, schedule);
      Waits(scripts, c, ch.sender, Recvs, ch) && Waits(scripts, c, ch.receiver, Sends, ch)
    ensures var scripts := ScriptsOf(programs);
      var c := Run(scripts, schedule);
      && (Moves(scripts, c, ch.sender) || Moves(scripts, c, ch.receiver))
      && (|Posted(scripts, c, Sends, ch)| == |Posted(scripts, c, Recvs, ch)| ==>
            Moves(scripts, c, ch.sender) && Moves(scripts, c, ch.receiver))
  {
    var scripts := ScriptsOf(programs);
    ProgramsOwned(programs);
    OpenCalls(programs, schedule, Sends, ch);
    OpenCalls(programs, schedule, Recvs, ch);
    TakeSucceeds(scripts, schedule, ch.sender, Recvs, ch);
    TakeSucceeds(scripts, schedule, ch.receiver, Sends, ch);
  }

  /** A channel on which neither end has a call open has no entry left in either list. */
  lemma IdleLeavesNothing(programs: seq<seq<Op>>, schedule: seq<nat>, ch: Channel)
    requires WellFormed(programs)
    requires var scripts := ScriptsOf(programs);
      var c := Run(scripts, schedule);
      && |Posted(scripts, c, Sends, ch)| == Taken(scripts, c, Recvs, ch)
      && |Posted(scripts, c, Recvs, ch)| == Taken(scripts, c, Sends, ch)
    ensures var c := Run(ScriptsOf(programs), schedule);
      OnChannel(c.store.sends, ch) == [] && OnChannel(c.store.recvs, ch) == []
  {
    var scripts := ScriptsOf(programs);
    ProgramsOwned(programs);
    ChannelsAreQueues(scripts, schedule, Sends, ch);
    ChannelsAreQueues(scripts, schedule, Recvs, ch);
  }

  /** Once all ranks have finished, both lists are empty. */
  lemma FinishedLeavesNothing(programs: seq<seq<Op>>, schedule: seq<nat>)
    requires WellFormed(programs)
    requires Finished(ScriptsOf(programs), Run(ScriptsOf(programs), schedule))
    ensures Run(ScriptsOf(programs), schedule).store == Store([], [])
  {
    var scripts := ScriptsOf(programs);
    var c := Run(scripts, schedule);
    ProgramsOwned(programs);
    ChannelsAreQueues(scripts, schedule, Sends, Channel(0, 0, 0, 0));
    forall ch ensures NoneLeft(c.store, ch) {
      OpenCalls(programs, schedule, Sends, ch);
      OpenCalls(programs, schedule, Recvs, ch);
      IdleLeavesNothing(programs, schedule, ch);
    }
    if c.store != Store([], []) {
      var ch := SomeLeft(c.store);
      assert false;
    }
  }
}
