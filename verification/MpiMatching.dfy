/** Ranks that put and take entries in every interleaving of the lock sections, without wildcards. */
module MpiMatching {
  import opened Basics
  import opened MpiStore

  datatype Channel = Channel(sender: nat, receiver: nat, tag: nat, comm: nat)

  datatype Side = Sends | Recvs

  function Other(side: Side): Side {
    if side.Sends? then Recvs else Sends
  }

  /** One lock section: put an entry, or look for one and take it. A query that finds nothing is asked
      again. */
  datatype Action = Post(side: Side, ch: Channel, inst: nat, dif: nat) | Take(side: Side, ch: Channel)

  /** What each rank does, in order. */
  type Scripts = seq<seq<Action>>

  datatype Config = Config(store: Store, done: seq<nat>)

  function Message(kind: Kind, ch: Channel, inst: nat, dif: nat): MpiCall {
    MpiCall(kind, From(ch.sender), ch.receiver, Tag(ch.tag), ch.comm, inst, dif)
  }

  function EntryOf(a: Action): MpiCall
    requires a.Post?
  {
    Message(if a.side.Sends? then PutSend else PutRecv, a.ch, a.inst, a.dif)
  }

  function QueryOf(a: Action): MpiCall
    requires a.Take?
  {
    Message(if a.side.Sends? then GetSend else GetRecv, a.ch, 0, 0)
  }

  function List(st: Store, side: Side): seq<MpiCall> {
    if side.Sends? then st.sends else st.recvs
  }

  function Start(scripts: Scripts): Config {
    Config(Store([], []), seq(|scripts|, _ => 0))
  }

  /** Rank `p` is not finished. */
  predicate Active(scripts: Scripts, c: Config, p: nat) {
    p < |scripts| && |c.done| == |scripts| && c.done[p] < |scripts[p]|
  }

  ghost predicate Finished(scripts: Scripts, c: Config) {
    forall p :: 0 <= p < |scripts| ==> !Active(scripts, c, p)
  }

  function NextOf(scripts: Scripts, c: Config, p: nat): Action
    requires Active(scripts, c, p)
  {
    scripts[p][c.done[p]]
  }

  function Step(scripts: Scripts, c: Config, p: nat): Config {
    if !Active(scripts, c, p) then c
    else
      var a, done := NextOf(scripts, c, p), c.done[p := c.done[p] + 1];
      match a
      case Post(_, _, _, _) => Config(Put(c.store, EntryOf(a)), done)
      case Take(_, _) =>
        if Answer(c.store, QueryOf(a)).kind.NotFound? then c else Config(Without(c.store, QueryOf(a)), done)
  }

  /** Rank `p` gets on when it has its turn. */
  predicate Moves(scripts: Scripts, c: Config, p: nat) {
    Active(scripts, c, p) && Step(scripts, c, p).done == c.done[p := c.done[p] + 1]
  }

  /** The configuration after the ranks in `schedule` have had their turns. */
  function Run(scripts: Scripts, schedule: seq<nat>): Config {
    if schedule == [] then Start(scripts)
    else Step(scripts, Run(scripts, schedule[..|schedule| - 1]), schedule[|schedule| - 1])
  }

  // ----- One channel -----------------------------------------------------------------------

  predicate IsOn(m: MpiCall, ch: Channel) {
    m.sender == From(ch.sender) && m.receiver == ch.receiver && m.tag == Tag(ch.tag) && m.comm == ch.comm
  }

  function OnChannel(list: seq<MpiCall>, ch: Channel): seq<MpiCall> {
    if list == [] then []
    else (if IsOn(list[0], ch) then [list[0]] else []) + OnChannel(list[1..], ch)
  }

  /** Entries without wildcards. */
  ghost predicate Plain(list: seq<MpiCall>) {
    forall k :: 0 <= k < |list| ==> list[k].sender.From? && list[k].tag.Tag?
  }

  lemma {:induction false} OnChannelConcat(a: seq<MpiCall>, b: seq<MpiCall>, ch: Channel)
    ensures OnChannel(a + b, ch) == OnChannel(a, ch) + OnChannel(b, ch)
    decreases |a|
  {
    if a == [] {
      assert a + b == b;
    } else {
      OnChannelConcat(a[1..], b, ch);
      assert (a + b)[1..] == a[1..] + b;
    }
  }

  /** A query finds the oldest entry on its channel, if there is one, and takes only that. */
  lemma {:induction false} TakesOldest(list: seq<MpiCall>, query: MpiCall, ch: Channel, other: Channel)
    requires Plain(list) && IsOn(query, ch)
    ensures var k := FirstMatch(list, query);
      && (k == |list| <==> OnChannel(list, ch) == [])
      && (k < |list| ==>
            && list[k] == OnChannel(list, ch)[0]
            && OnChannel(Remove(list, k), ch) == OnChannel(list, ch)[1..]
            && (other != ch ==> OnChannel(Remove(list, k), other) == OnChannel(list, other))
            && Plain(Remove(list, k)))
    decreases |list|
  {
    if list != [] {
      var rest, k := list[1..], FirstMatch(list, query);
      assert Matches(list[0], query) <==> IsOn(list[0], ch);
      if k == 0 {
        assert Remove(list, 0) == rest;
      } else {
        TakesOldest(rest, query, ch, other);
        if k < |list| {
          var left := Remove(rest, k - 1);
          assert Remove(list, k) == [list[0]] + left && ([list[0]] + left)[1..] == left;
        }
      }
    }
  }

  /** Entries without wildcards are all on some channel. */
  lemma OnSome(list: seq<MpiCall>) returns (ch: Channel)
    requires Plain(list) && list != []
    ensures OnChannel(list, ch) != []
  {
    ch := Channel(list[0].sender.rank, list[0].receiver, list[0].tag.id, list[0].comm);
    assert IsOn(list[0], ch);
  }

  ghost predicate NoneLeft(st: Store, ch: Channel) {
    OnChannel(st.sends, ch) == [] && OnChannel(st.recvs, ch) == []
  }

  lemma SomeLeft(st: Store) returns (ch: Channel)
    requires Plain(st.sends) && Plain(st.recvs) && st != Store([], [])
    ensures !NoneLeft(st, ch)
  {
    ch := OnSome(if st.sends != [] then st.sends else st.recvs);
  }

  // ----- What every interleaving keeps -----------------------------------------------------

  /** Only the sender of a channel posts its sends and takes its receives, only the receiver posts
      its receives and takes its sends. */
  function Poster(side: Side, ch: Channel): nat {
    if side.Sends? then ch.sender else ch.receiver
  }

  function Taker(side: Side, ch: Channel): nat {
    if side.Sends? then ch.receiver else ch.sender
  }

  predicate Owns(p: nat, a: Action) {
    p == if a.Post? then Poster(a.side, a.ch) else Taker(a.side, a.ch)
  }

  ghost predicate Owned(scripts: Scripts) {
    forall p, i :: 0 <= p < |scripts| && 0 <= i < |scripts[p]| ==> Owns(p, scripts[p][i])
  }

  /** The entry an action adds to one side of a channel, and the entries it takes. */
  function NewPost(a: Action, side: Side, ch: Channel): seq<MpiCall> {
    if a.Post? && a.side == side && a.ch == ch then [EntryOf(a)] else []
  }

  function NewTake(a: Action, side: Side, ch: Channel): nat {
    if a == Take(side, ch) then 1 else 0
  }

  function Posts(actions: seq<Action>, side: Side, ch: Channel): seq<MpiCall> {
    if actions == [] then []
    else Posts(actions[..|actions| - 1], side, ch) + NewPost(actions[|actions| - 1], side, ch)
  }

  function Takes(actions: seq<Action>, side: Side, ch: Channel): nat {
    if actions == [] then 0
    else Takes(actions[..|actions| - 1], side, ch) + NewTake(actions[|actions| - 1], side, ch)
  }

  /** What rank `p` has done so far. */
  function Past(scripts: Scripts, c: Config, p: nat): seq<Action> {
    if p < |scripts| && p < |c.done| && c.done[p] <= |scripts[p]| then scripts[p][..c.done[p]] else []
  }

  function Posted(scripts: Scripts, c: Config, side: Side, ch: Channel): seq<MpiCall> {
    Posts(Past(scripts, c, Poster(side, ch)), side, ch)
  }

  function Taken(scripts: Scripts, c: Config, side: Side, ch: Channel): nat {
    Takes(Past(scripts, c, Taker(side, ch)), side, ch)
  }

  /** The entries on a channel are exactly the posted ones not yet taken, oldest first. */
  ghost predicate Queued(scripts: Scripts, c: Config, side: Side, ch: Channel) {
    var posted, taken := Posted(scripts, c, side, ch), Taken(scripts, c, side, ch);
    taken <= |posted| && OnChannel(List(c.store, side), ch) == posted[taken..]
  }

  ghost predicate Placed(scripts: Scripts, c: Config) {
    && |c.done| == |scripts| && (forall p :: 0 <= p < |scripts| ==> c.done[p] <= |scripts[p]|)
    && Plain(c.store.sends) && Plain(c.store.recvs)
  }

  lemma PastGrows(scripts: Scripts, c: Config, c': Config, p: nat, q: nat)
    requires Placed(scripts, c) && Active(scripts, c, p) && c'.done == c.done[p := c.done[p] + 1]
    ensures Past(scripts, c', q) == if q == p then Past(scripts, c, q) + [NextOf(scripts, c, p)] else Past(scripts, c, q)
  {
  }

  lemma PostsSnoc(actions: seq<Action>, a: Action, side: Side, ch: Channel)
    ensures Posts(actions + [a], side, ch) == Posts(actions, side, ch) + NewPost(a, side, ch)
    ensures Takes(actions + [a], side, ch) == Takes(actions, side, ch) + NewTake(a, side, ch)
  {
    assert (actions + [a])[..|actions|] == actions;
  }

  lemma {:induction false} CountsConcat(a: seq<Action>, b: seq<Action>, side: Side, ch: Channel)
    ensures Posts(a + b, side, ch) == Posts(a, side, ch) + Posts(b, side, ch)
    ensures Takes(a + b, side, ch) == Takes(a, side, ch) + Takes(b, side, ch)
    decreases |b|
  {
    if b == [] {
      assert a + b == a;
    } else {
      var front, last := b[..|b| - 1], b[|b| - 1];
      CountsConcat(a, front, side, ch);
      CountsConcatSnoc(a, front, last, side, ch);
      assert b == front + [last];
    }
  }

  lemma CountsConcatSnoc(a: seq<Action>, b: seq<Action>, last: Action, side: Side, ch: Channel)
    requires Posts(a + b, side, ch) == Posts(a, side, ch) + Posts(b, side, ch)
    requires Takes(a + b, side, ch) == Takes(a, side, ch) + Takes(b, side, ch)
    ensures Posts(a + (b + [last]), side, ch) == Posts(a, side, ch) + Posts(b + [last], side, ch)
    ensures Takes(a + (b + [last]), side, ch) == Takes(a, side, ch) + Takes(b + [last], side, ch)
  {
    PostsSnoc(a + b, last, side, ch);
    PostsSnoc(b, last, side, ch);
    Regroup(a, b, [last]);
    Regroup(Posts(a, side, ch), Posts(b, side, ch), NewPost(last, side, ch));
  }

  /** The counts only grow along a script. */
  lemma CountsGrow(a: seq<Action>, i: nat, j: nat, side: Side, ch: Channel)
    requires i <= j <= |a|
    ensures |Posts(a[..i], side, ch)| <= |Posts(a[..j], side, ch)| && Takes(a[..i], side, ch) <= Takes(a[..j], side, ch)
  {
    CountsConcat(a[..i], a[i..j], side, ch);
    assert a[..i] + a[i..j] == a[..j];
  }

  /** Posted and taken after a step in which rank `p` did its next action. */
  lemma PostedAfter(scripts: Scripts, c: Config, c': Config, p: nat, side: Side, ch: Channel)
    requires Owned(scripts) && Placed(scripts, c) && Active(scripts, c, p) && c'.done == c.done[p := c.done[p] + 1]
    ensures Posted(scripts, c', side, ch) == Posted(scripts, c, side, ch) + NewPost(NextOf(scripts, c, p), side, ch)
  {
    var a, q := NextOf(scripts, c, p), Poster(side, ch);
    assert Owns(p, a);
    PastGrows(scripts, c, c', p, q);
    if q == p {
      PostsSnoc(Past(scripts, c, p), a, side, ch);
    } else {
      assert NewPost(a, side, ch) == [];
    }
  }

  lemma TakenAfter(scripts: Scripts, c: Config, c': Config, p: nat, side: Side, ch: Channel)
    requires Owned(scripts) && Placed(scripts, c) && Active(scripts, c, p) && c'.done == c.done[p := c.done[p] + 1]
    ensures Taken(scripts, c', side, ch) == Taken(scripts, c, side, ch) + NewTake(NextOf(scripts, c, p), side, ch)
  {
    var a, q := NextOf(scripts, c, p), Taker(side, ch);
    assert Owns(p, a);
    PastGrows(scripts, c, c', p, q);
    if q == p {
      PostsSnoc(Past(scripts, c, p), a, side, ch);
    }
  }

  /** What putting and taking do to the entries on any channel. */
  lemma PutOnList(st: Store, a: Action, side: Side, ch: Channel)
    requires a.Post?
    ensures OnChannel(List(Put(st, EntryOf(a)), side), ch) == OnChannel(List(st, side), ch) + NewPost(a, side, ch)
  {
    OnChannelConcat(List(st, side), [EntryOf(a)], ch);
    assert OnChannel([EntryOf(a)], ch) == if a.ch == ch then [EntryOf(a)] else [];
  }

  lemma TakeFromList(st: Store, a: Action, side: Side, ch: Channel)
    requires a.Take? && Plain(st.sends) && Plain(st.recvs)
    ensures Answer(st, QueryOf(a)).kind.NotFound? <==> OnChannel(List(st, a.side), a.ch) == []
    ensures !Answer(st, QueryOf(a)).kind.NotFound? ==>
              var st', n := Without(st, QueryOf(a)), NewTake(a, side, ch);
              && Plain(st'.sends) && Plain(st'.recvs) && n <= |OnChannel(List(st, side), ch)|
              && OnChannel(List(st', side), ch) == OnChannel(List(st, side), ch)[n..]
  {
    TakesOldest(List(st, a.side), QueryOf(a), a.ch, ch);
  }

  lemma StepPlaced(scripts: Scripts, c: Config, p: nat)
    requires Placed(scripts, c)
    ensures Placed(scripts, Step(scripts, c, p))
  {
    if Active(scripts, c, p) {
      var a := NextOf(scripts, c, p);
      if a.Take? { TakeFromList(c.store, a, a.side, a.ch); }
    }
  }

  lemma PostKeeps(scripts: Scripts, c: Config, p: nat, side: Side, ch: Channel)
    requires Owned(scripts) && Placed(scripts, c) && Queued(scripts, c, side, ch)
    requires Active(scripts, c, p) && NextOf(scripts, c, p).Post?
    ensures Queued(scripts, Step(scripts, c, p), side, ch)
  {
    var a, c' := NextOf(scripts, c, p), Step(scripts, c, p);
    PostedAfter(scripts, c, c', p, side, ch);
    TakenAfter(scripts, c, c', p, side, ch);
    PutOnList(c.store, a, side, ch);
    var posted, taken := Posted(scripts, c, side, ch), Taken(scripts, c, side, ch);
    assert (posted + NewPost(a, side, ch))[taken..] == posted[taken..] + NewPost(a, side, ch);
  }

  lemma TakeKeeps(scripts: Scripts, c: Config, p: nat, side: Side, ch: Channel)
    requires Owned(scripts) && Placed(scripts, c) && Queued(scripts, c, side, ch)
    requires Active(scripts, c, p) && NextOf(scripts, c, p).Take?
    ensures Queued(scripts, Step(scripts, c, p), side, ch)
  {
    var a, c' := NextOf(scripts, c, p), Step(scripts, c, p);
    TakeFromList(c.store, a, side, ch);
    if c' != c {
      PostedAfter(scripts, c, c', p, side, ch);
      TakenAfter(scripts, c, c', p, side, ch);
      var posted, taken, n := Posted(scripts, c, side, ch), Taken(scripts, c, side, ch), NewTake(a, side, ch);
      assert posted + [] == posted && posted[taken..][n..] == posted[taken + n..];
    }
  }

  /** Every channel is a queue, in every interleaving. */
  lemma {:induction false} ChannelsAreQueues(scripts: Scripts, schedule: seq<nat>, side: Side, ch: Channel)
    requires Owned(scripts)
    ensures var c := Run(scripts, schedule); Placed(scripts, c) && Queued(scripts, c, side, ch)
    decreases |schedule|
  {
    if schedule != [] {
      var c, p := Run(scripts, schedule[..|schedule| - 1]), schedule[|schedule| - 1];
      ChannelsAreQueues(scripts, schedule[..|schedule| - 1], side, ch);
      StepPlaced(scripts, c, p);
      if Active(scripts, c, p) {
        if NextOf(scripts, c, p).Post? {
          PostKeeps(scripts, c, p, side, ch);
        } else {
          TakeKeeps(scripts, c, p, side, ch);
        }
      }
    }
  }

  /** Rank `p` has a query on the channel as its next action. */
  predicate Waits(scripts: Scripts, c: Config, p: nat, side: Side, ch: Channel) {
    Active(scripts, c, p) && NextOf(scripts, c, p) == Take(side, ch)
  }

  /** A query succeeds exactly if more has been posted than taken, and it learns what the oldest
      posted entry not yet taken says: the `k`-th take answers the `k`-th post. */
  lemma TakeSucceeds(scripts: Scripts, schedule: seq<nat>, p: nat, side: Side, ch: Channel)
    requires Owned(scripts) && Waits(scripts, Run(scripts, schedule), p, side, ch)
    ensures var c := Run(scripts, schedule);
      var posted, taken := Posted(scripts, c, side, ch), Taken(scripts, c, side, ch);
      var answer := Answer(c.store, QueryOf(Take(side, ch)));
      if taken < |posted| then
        && Moves(scripts, c, p)
        && answer.inst == posted[taken].inst && answer.dif == posted[taken].dif
      else Step(scripts, c, p) == c
  {
    var c := Run(scripts, schedule);
    ChannelsAreQueues(scripts, schedule, side, ch);
    TakesOldest(List(c.store, side), QueryOf(Take(side, ch)), ch, ch);
    TakeFromList(c.store, Take(side, ch), side, ch);
  }
}
