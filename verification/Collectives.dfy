/** The collective calls of a communicator, one after another, in every interleaving. */
module Collectives {
  import opened MpiStore
  import opened MpiMatching
  import opened CollectiveRounds

  /** `n` ranks that call under one tag in one communicator. */
  datatype Group = Group(n: nat, tag: nat, comm: nat)

  /** Gathering is reduced to the root; gathering to all and the exchange of all with all are done
      alike. */
  datatype Call = Exchange | Broadcast(root: nat) | Reduction(root: nat) | Scattering(root: nat)

  /** The ranks below `i` but `p`, in order. */
  function Others(p: nat, i: nat): seq<nat> {
    if i == 0 then [] else Others(p, i - 1) + (if i - 1 != p then [i - 1] else [])
  }

  /** A loop over the communicator leaves out the rank itself, which comes last. */
  function Peers(p: nat, n: nat): seq<nat> {
    Others(p, n) + [p]
  }

  /** The channel of `side` on which `p` posts, or takes, towards `q`. */
  function PostChannel(g: Group, side: Side, p: nat, q: nat): Channel {
    if side.Sends? then Channel(p, q, g.tag, g.comm) else Channel(q, p, g.tag, g.comm)
  }

  function TakeChannel(g: Group, side: Side, p: nat, q: nat): Channel {
    PostChannel(g, Other(side), p, q)
  }

  function PostTo(g: Group, side: Side, p: nat, q: nat): Action {
    Post(side, PostChannel(g, side, p, q), 0, 0)
  }

  function TakeFrom(g: Group, side: Side, p: nat, q: nat): Action {
    Take(side, TakeChannel(g, side, p, q))
  }

  function PostToAll(g: Group, side: Side, p: nat, peers: seq<nat>): seq<Action> {
    if peers == [] then []
    else PostToAll(g, side, p, peers[..|peers| - 1]) + [PostTo(g, side, p, peers[|peers| - 1])]
  }

  function TakeFromAll(g: Group, side: Side, p: nat, peers: seq<nat>): seq<Action> {
    if peers == [] then []
    else TakeFromAll(g, side, p, peers[..|peers| - 1]) + [TakeFrom(g, side, p, peers[|peers| - 1])]
  }

  /** What rank `p` does in a call, in order. */
  function PartOf(g: Group, call: Call, p: nat): Part {
    var peers := Peers(p, g.n);
    match call
    case Exchange =>
      Part(PostToAll(g, Sends, p, peers) + PostToAll(g, Recvs, p, peers),
           TakeFromAll(g, Sends, p, peers) + TakeFromAll(g, Recvs, p, peers))
    case Broadcast(root) =>
      if p == root then Part(PostToAll(g, Sends, p, Others(p, g.n)), TakeFromAll(g, Recvs, p, Others(p, g.n)))
      else Part([PostTo(g, Recvs, p, root)], [TakeFrom(g, Sends, p, root)])
    case Reduction(root) =>
      Part([PostTo(g, Sends, p, root)] + (if p == root then PostToAll(g, Recvs, p, peers) else []),
           (if p == root then TakeFromAll(g, Sends, p, peers) else []) + [TakeFrom(g, Recvs, p, root)])
    case Scattering(root) =>
      Part([PostTo(g, Recvs, p, root)] + (if p == root then PostToAll(g, Sends, p, peers) else []),
           (if p == root then TakeFromAll(g, Recvs, p, peers) else []) + [TakeFrom(g, Sends, p, root)])
  }

  function PartsOf(g: Group, calls: seq<Call>, p: nat): seq<Part> {
    seq(|calls|, k requires 0 <= k < |calls| => PartOf(g, calls[k], p))
  }

  function RanksOf(g: Group, calls: seq<Call>): seq<seq<Part>> {
    seq(g.n, p requires 0 <= p < g.n => PartsOf(g, calls, p))
  }

  /** Every rank makes the same calls. */
  function ScriptsOf(g: Group, calls: seq<Call>): Scripts {
    ScriptsFor(RanksOf(g, calls))
  }

  predicate HasRoot(g: Group, call: Call) {
    call.Exchange? || call.root < g.n
  }

  /** Roots are ranks of the communicator. */
  predicate AreCalls(g: Group, calls: seq<Call>) {
    forall k :: 0 <= k < |calls| ==> HasRoot(g, calls[k])
  }

  // ----- The entries of a loop -------------------------------------------------------------

  function Entries(actions: seq<Action>): seq<MpiCall> {
    if actions == [] then []
    else
      var a := actions[|actions| - 1];
      Entries(actions[..|actions| - 1]) + (if a.Post? then [EntryOf(a)] else [])
  }

  lemma EntriesSnoc(actions: seq<Action>, a: Action)
    requires a.Post?
    ensures Entries(actions + [a]) == Entries(actions) + [EntryOf(a)]
  {
    assert (actions + [a])[..|actions|] == actions;
  }

  lemma LoopSnoc(g: Group, side: Side, p: nat, peers: seq<nat>, q: nat)
    ensures PostToAll(g, side, p, peers + [q]) == PostToAll(g, side, p, peers) + [PostTo(g, side, p, q)]
  {
    assert (peers + [q])[..|peers|] == peers;
  }

  /** The puts of a loop are those of `SendMsgToAllComm`, whichever rank the record names before. */
  lemma {:induction false} LoopEntries(g: Group, side: Side, p: nat, q: nat, n: nat)
    ensures Entries(PostToAll(g, side, p, Others(p, n))) == ToOthers(EntryOf(PostTo(g, side, p, q)), n)
    decreases n
  {
    if n > 0 {
      var before := Others(p, n - 1);
      LoopEntries(g, side, p, q, n - 1);
      if n - 1 == p {
        assert Others(p, n) == before;
      } else {
        LoopSnoc(g, side, p, before, n - 1);
        EntriesSnoc(PostToAll(g, side, p, before), PostTo(g, side, p, n - 1));
      }
    }
  }

  /** The entry that comes last is the record as the loop leaves it. */
  lemma PeersEntries(g: Group, side: Side, p: nat, q: nat)
    ensures var update := EntryOf(PostTo(g, side, p, q));
      Entries(PostToAll(g, side, p, Peers(p, g.n))) == ToOthers(update, g.n) + [AfterLoop(update)]
  {
    LoopEntries(g, side, p, q, g.n);
    LoopSnoc(g, side, p, Others(p, g.n), p);
    EntriesSnoc(PostToAll(g, side, p, Others(p, g.n)), PostTo(g, side, p, p));
  }

  // ----- The channels of a call ------------------------------------------------------------

  predicate InGroup(g: Group, ch: Channel) {
    ch.sender < g.n && ch.receiver < g.n && ch.tag == g.tag && ch.comm == g.comm
  }

  /** Broadcasts and scatterings send from the root, the former to all others and the latter to all;
      reductions send to the root. */
  predicate IsUsed(g: Group, call: Call, ch: Channel) {
    InGroup(g, ch) &&
    match call
    case Exchange => true
    case Broadcast(root) => ch.sender == root && ch.receiver != root
    case Reduction(root) => ch.receiver == root
    case Scattering(root) => ch.sender == root
  }

  ghost function UsesOf(g: Group, call: Call): Uses {
    iset e: End | IsUsed(g, call, e.ch)
  }

  ghost function AllUses(g: Group, calls: seq<Call>): seq<Uses> {
    seq(|calls|, k requires 0 <= k < |calls| => UsesOf(g, calls[k]))
  }

  function Times(s: seq<nat>, q: nat): nat {
    if s == [] then 0 else Times(s[..|s| - 1], q) + (if s[|s| - 1] == q then 1 else 0)
  }

  lemma {:induction false} OthersOnce(p: nat, i: nat, q: nat)
    ensures Times(Others(p, i), q) == if q < i && q != p then 1 else 0
    decreases i
  {
    if i > 0 {
      OthersOnce(p, i - 1, q);
      var front := Others(p, i - 1);
      assert (front + [i - 1])[..|front|] == front && front + [] == front;
    }
  }

  /** Every rank is visited once. */
  lemma PeersOnce(p: nat, n: nat, q: nat)
    requires p < n
    ensures Times(Peers(p, n), q) == if q < n then 1 else 0
  {
    OthersOnce(p, n, q);
    var front := Others(p, n);
    assert (front + [p])[..|front|] == front;
  }

  lemma {:induction false} PostToAllCounts(g: Group, at: Side, p: nat, peers: seq<nat>, side: Side, ch: Channel)
    ensures var own := at == side && p == Poster(side, ch) && ch.tag == g.tag && ch.comm == g.comm;
      |Posts(PostToAll(g, at, p, peers), side, ch)| == if own then Times(peers, Taker(side, ch)) else 0
    decreases |peers|
  {
    if peers != [] {
      var front, a := PostToAll(g, at, p, peers[..|peers| - 1]), PostTo(g, at, p, peers[|peers| - 1]);
      PostToAllCounts(g, at, p, peers[..|peers| - 1], side, ch);
      PostsSnoc(front, a, side, ch);
    }
  }

  lemma {:induction false} TakeFromAllCounts(g: Group, at: Side, p: nat, peers: seq<nat>, side: Side, ch: Channel)
    ensures var own := at == side && p == Taker(side, ch) && ch.tag == g.tag && ch.comm == g.comm;
      Takes(TakeFromAll(g, at, p, peers), side, ch) == if own then Times(peers, Poster(side, ch)) else 0
    decreases |peers|
  {
    if peers != [] {
      var front, a := TakeFromAll(g, at, p, peers[..|peers| - 1]), TakeFrom(g, at, p, peers[|peers| - 1]);
      TakeFromAllCounts(g, at, p, peers[..|peers| - 1], side, ch);
      PostsSnoc(front, a, side, ch);
    }
  }

  /** Those towards whom `p` posts on a side are those of whom it takes on the other. */
  function Partners(g: Group, call: Call, p: nat, side: Side): seq<nat> {
    match call
    case Exchange => Peers(p, g.n)
    case Broadcast(root) =>
      if p == root then (if side.Sends? then Others(p, g.n) else []) else if side.Recvs? then [root] else []
    case Reduction(root) => if side.Sends? then [root] else if p == root then Peers(p, g.n) else []
    case Scattering(root) => if side.Recvs? then [root] else if p == root then Peers(p, g.n) else []
  }

  function First(call: Call): Side {
    if call.Scattering? then Recvs else Sends
  }

  lemma PartOfPartners(g: Group, call: Call, p: nat)
    ensures var s := First(call);
      PartOf(g, call, p) == Part(
        PostToAll(g, s, p, Partners(g, call, p, s)) + PostToAll(g, Other(s), p, Partners(g, call, p, Other(s))),
        TakeFromAll(g, s, p, Partners(g, call, p, Other(s))) + TakeFromAll(g, Other(s), p, Partners(g, call, p, s)))
  {
    match call
    case Exchange =>
    case Broadcast(root) =>
      OnePartner(g, p, root);
    case Reduction(root) =>
      OnePartner(g, p, root);
    case Scattering(root) =>
      OnePartner(g, p, root);
  }

  lemma OnePartner(g: Group, p: nat, q: nat)
    ensures forall side :: PostToAll(g, side, p, [q]) == [PostTo(g, side, p, q)] && PostToAll(g, side, p, []) == []
    ensures forall side :: TakeFromAll(g, side, p, [q]) == [TakeFrom(g, side, p, q)] && TakeFromAll(g, side, p, []) == []
  {
    assert [q][..0] == [];
  }

  /** Rank `p` has `q` as a partner once, if the channel between them is used, and never else. */
  lemma PartnersOnce(g: Group, call: Call, p: nat, side: Side, q: nat)
    requires p < g.n && HasRoot(g, call)
    ensures Times(Partners(g, call, p, side), q) == if IsUsed(g, call, PostChannel(g, side, p, q)) then 1 else 0
  {
    PeersOnce(p, g.n, q);
    OthersOnce(p, g.n, q);
    if !call.Exchange? {
      assert [call.root][..0] == [];
    }
  }

  ghost predicate InTag(g: Group, ch: Channel) {
    ch.tag == g.tag && ch.comm == g.comm
  }

  /** Two loops over ranks, one for each side. */
  lemma TwoPutLoops(g: Group, s: Side, p: nat, on: seq<nat>, off: seq<nat>, side: Side, ch: Channel)
    ensures var puts, partners := PostToAll(g, s, p, on) + PostToAll(g, Other(s), p, off), if side == s then on else off;
      |Posts(puts, side, ch)| == if p == Poster(side, ch) && InTag(g, ch) then Times(partners, Taker(side, ch)) else 0
  {
    PostToAllCounts(g, s, p, on, side, ch);
    PostToAllCounts(g, Other(s), p, off, side, ch);
    var a, b := PostToAll(g, s, p, on), PostToAll(g, Other(s), p, off);
    CountsConcat(a, b, side, ch);
  }

  lemma TwoQueryLoops(g: Group, s: Side, p: nat, on: seq<nat>, off: seq<nat>, side: Side, ch: Channel)
    ensures var queries, partners := TakeFromAll(g, s, p, on) + TakeFromAll(g, Other(s), p, off), if side == s then on else off;
      Takes(queries, side, ch) == if p == Taker(side, ch) && InTag(g, ch) then Times(partners, Poster(side, ch)) else 0
  {
    TakeFromAllCounts(g, s, p, on, side, ch);
    TakeFromAllCounts(g, Other(s), p, off, side, ch);
    var a, b := TakeFromAll(g, s, p, on), TakeFromAll(g, Other(s), p, off);
    CountsConcat(a, b, side, ch);
  }

  lemma {:induction false} LoopKinds(g: Group, at: Side, p: nat, peers: seq<nat>)
    ensures forall i :: 0 <= i < |PostToAll(g, at, p, peers)| ==> PostToAll(g, at, p, peers)[i].Post?
    ensures forall i :: 0 <= i < |TakeFromAll(g, at, p, peers)| ==> TakeFromAll(g, at, p, peers)[i].Take?
    decreases |peers|
  {
    if peers != [] { LoopKinds(g, at, p, peers[..|peers| - 1]); }
  }

  lemma CallCounts(g: Group, call: Call, p: nat, side: Side, ch: Channel)
    requires p < g.n && HasRoot(g, call)
    ensures var part, uses := PartOf(g, call, p), UsesOf(g, call);
      PostsOnce(uses, p, part.puts, side, ch) && TakesOnce(uses, p, part.queries, side, ch)
  {
    var s, t := First(call), Other(First(call));
    PartOfPartners(g, call, p);
    TwoPutLoops(g, s, p, Partners(g, call, p, s), Partners(g, call, p, t), side, ch);
    TwoQueryLoops(g, s, p, Partners(g, call, p, t), Partners(g, call, p, s), side, ch);
    if p == Poster(side, ch) { PartnersOnce(g, call, p, side, Taker(side, ch)); }
    if p == Taker(side, ch) { PartnersOnce(g, call, p, Other(side), Poster(side, ch)); }
  }

  /** In a call every rank puts one entry and takes one on each of its channels. */
  lemma CallIsPart(g: Group, call: Call, p: nat)
    requires p < g.n && HasRoot(g, call)
    ensures IsPart(UsesOf(g, call), p, PartOf(g, call, p))
  {
    var uses, part := UsesOf(g, call), PartOf(g, call, p);
    forall side, ch ensures PostsOnce(uses, p, part.puts, side, ch) && TakesOnce(uses, p, part.queries, side, ch) {
      CallCounts(g, call, p, side, ch);
    }
    PartOfPartners(g, call, p);
    forall side, peers { LoopKinds(g, side, p, peers); }
  }

  lemma CallsAreParts(g: Group, calls: seq<Call>)
    requires AreCalls(g, calls)
    ensures AreParts(AllUses(g, calls), RanksOf(g, calls))
  {
    var us, ranks := AllUses(g, calls), RanksOf(g, calls);
    forall k | 0 <= k < |us| ensures AllInside(us[k], |ranks|) {
    }
    forall p | 0 <= p < |ranks| ensures AreOwn(us, p, ranks[p]) {
      forall k | 0 <= k < |us| ensures IsPart(us[k], p, ranks[p][k]) {
        assert HasRoot(g, calls[k]);
        CallIsPart(g, calls[k], p);
      }
    }
  }

  // ----- Every interleaving of any calls ---------------------------------------------------

  function At(g: Group, calls: seq<Call>, schedule: seq<nat>): Config {
    Run(ScriptsOf(g, calls), schedule)
  }

  /** Rank `p` has returned from call `k`. */
  ghost predicate Returned(g: Group, calls: seq<Call>, schedule: seq<nat>, p: nat, k: nat) {
    Left(RanksOf(g, calls), At(g, calls, schedule), p, k)
  }

  /** Rank `p` has begun call `k`. */
  ghost predicate Begun(g: Group, calls: seq<Call>, schedule: seq<nat>, p: nat, k: nat) {
    Entered(RanksOf(g, calls), At(g, calls, schedule), p, k)
  }

  /** Two ranks between which a call has a channel. */
  predicate Joined(call: Call, p: nat, q: nat) {
    call.Exchange? || p == call.root || q == call.root
  }

  /** No rank returns from a call before those it is joined with have begun it. */
  lemma WaitsForJoined(g: Group, calls: seq<Call>, schedule: seq<nat>, k: nat, p: nat, q: nat)
    requires AreCalls(g, calls) && k < |calls| && q < g.n && p != q && Joined(calls[k], p, q)
    requires Returned(g, calls, schedule, p, k)
    ensures Begun(g, calls, schedule, q, k)
  {
    assert HasRoot(g, calls[k]);
    CallsAreParts(g, calls);
    var to, back := Channel(q, p, g.tag, g.comm), Channel(p, q, g.tag, g.comm);
    if IsUsed(g, calls[k], to) {
      assert End(Sends, to) in AllUses(g, calls)[k];
      EntersFirst(AllUses(g, calls), RanksOf(g, calls), schedule, k, Sends, to);
    } else {
      assert End(Recvs, back) in AllUses(g, calls)[k];
      EntersFirst(AllUses(g, calls), RanksOf(g, calls), schedule, k, Recvs, back);
    }
  }

  function Turns(r: nat, m: nat): seq<nat> {
    if m == 0 then [] else Turns(r, m - 1) + [r]
  }

  lemma OneCall(g: Group, call: Call, p: nat)
    requires p < g.n
    ensures |ScriptsOf(g, [call])| == g.n && ScriptsOf(g, [call])[p] == Round(PartOf(g, call, p))
    ensures Begin(RanksOf(g, [call])[p], 0) == 0 && Begin(RanksOf(g, [call])[p], 1) == |Round(PartOf(g, call, p))|
  {
    var own := RanksOf(g, [call])[p];
    assert own == [PartOf(g, call, p)] && Upto(own, 0) == [];
    assert Upto(own, 1) == Upto(own, 0) + Round(own[0]) == Round(own[0]);
  }

  ghost predicate Alone(c: Config, n: nat, r: nat, m: nat) {
    r < n == |c.done| && c.done[r] == m && forall q :: 0 <= q < n && q != r ==> c.done[q] == 0
  }

  /** A rank can do all its puts alone. */
  lemma {:induction false} PutsAlone(scripts: Scripts, r: nat, m: nat)
    requires r < |scripts| && m <= |scripts[r]| && forall i :: 0 <= i < m ==> scripts[r][i].Post?
    ensures Alone(Run(scripts, Turns(r, m)), |scripts|, r, m)
    decreases m
  {
    if m > 0 {
      PutsAlone(scripts, r, m - 1);
      Turn(scripts, Turns(r, m - 1), r);
    }
  }

  lemma Turn(scripts: Scripts, schedule: seq<nat>, p: nat)
    ensures Run(scripts, schedule + [p]) == Step(scripts, Run(scripts, schedule), p)
  {
    assert (schedule + [p])[..|schedule|] == schedule;
  }

  /** What rank `p` does if it puts an entry and looks for one that rank `r` puts. */
  ghost predicate Answers(scripts: Scripts, r: nat, m: nat, p: nat, side: Side, ch: Channel) {
    && r < |scripts| && p < |scripts| && p != r && p == Taker(side, ch) && r == Poster(side, ch)
    && m <= |scripts[r]| && (forall i :: 0 <= i < m ==> scripts[r][i].Post?) && Posts(scripts[r][..m], side, ch) != []
    && |scripts[p]| == 2 && scripts[p][0].Post? && scripts[p][1] == Take(side, ch)
  }

  lemma EntryWaits(scripts: Scripts, r: nat, m: nat, p: nat, side: Side, ch: Channel, schedule: seq<nat>)
    requires Owned(scripts) && Answers(scripts, r, m, p, side, ch)
    requires var c := Run(scripts, schedule); |c.done| == |scripts| && c.done[p] == 1 && c.done[r] == m
    ensures Moves(scripts, Run(scripts, schedule), p)
  {
    var c, first := Run(scripts, schedule), scripts[p][0];
    assert Past(scripts, c, p) == [] + [first];
    PostsSnoc([], first, side, ch);
    TakeSucceeds(scripts, schedule, p, side, ch);
  }

  /** Where rank `r` has done its puts, rank `p` passes alone. */
  lemma PassesAlone(scripts: Scripts, r: nat, m: nat, p: nat, side: Side, ch: Channel) returns (schedule: seq<nat>)
    requires Owned(scripts) && Answers(scripts, r, m, p, side, ch)
    ensures var c := Run(scripts, schedule);
      && |c.done| == |scripts| && c.done[p] == 2
      && forall q :: 0 <= q < |scripts| && q != p && q != r ==> c.done[q] == 0
  {
    PutsAlone(scripts, r, m);
    var before := Turns(r, m) + [p];
    Turn(scripts, Turns(r, m), p);
    EntryWaits(scripts, r, m, p, side, ch, before);
    schedule := before + [p];
    Turn(scripts, before, p);
  }

  /** That is how every rank but the root goes through a call with a root. */
  lemma OtherAnswers(g: Group, call: Call, p: nat) returns (m: nat, side: Side, ch: Channel)
    requires p < g.n && HasRoot(g, call) && !call.Exchange? && p != call.root
    ensures Owned(ScriptsOf(g, [call])) && Answers(ScriptsOf(g, [call]), call.root, m, p, side, ch)
  {
    var r := call.root;
    side := if call.Reduction? then Recvs else Sends;
    m, ch := |PartOf(g, call, r).puts|, TakeChannel(g, side, p, r);
    OneCall(g, call, p);
    OneCall(g, call, r);
    CallOwned(g, call);
    RootPuts(g, call, side, ch);
  }

  lemma CallOwned(g: Group, call: Call)
    requires HasRoot(g, call)
    ensures Owned(ScriptsOf(g, [call]))
  {
    CallsAreParts(g, [call]);
    AllOwned(AllUses(g, [call]), RanksOf(g, [call]));
  }

  lemma RootPuts(g: Group, call: Call, side: Side, ch: Channel)
    requires HasRoot(g, call) && !call.Exchange? && IsUsed(g, call, ch) && Poster(side, ch) == call.root
    ensures var part := PartOf(g, call, call.root);
      && (forall i :: 0 <= i < |part.puts| ==> Round(part)[i].Post?)
      && Posts(Round(part)[..|part.puts|], side, ch) != []
  {
    var part := PartOf(g, call, call.root);
    CallIsPart(g, call, call.root);
    PrefixIsPuts(part);
    assert PostsOnce(UsesOf(g, call), call.root, part.puts, side, ch);
  }

  lemma PrefixIsPuts(part: Part)
    ensures Round(part)[..|part.puts|] == part.puts
    ensures forall i :: 0 <= i < |part.puts| ==> Round(part)[i] == part.puts[i]
  {
  }

  /** A rank waits in a call exactly for the ranks it is joined with: past any other it can return
      before that one has begun. */
  lemma WaitsIffJoined(g: Group, call: Call, p: nat, q: nat)
    requires HasRoot(g, call) && p < g.n && q < g.n && p != q
    ensures Joined(call, p, q)
       <==> forall schedule :: Returned(g, [call], schedule, p, 0) ==> Begun(g, [call], schedule, q, 0)
  {
    assert AreCalls(g, [call]);
    if Joined(call, p, q) {
      forall schedule | Returned(g, [call], schedule, p, 0) ensures Begun(g, [call], schedule, q, 0) {
        WaitsForJoined(g, [call], schedule, 0, p, q);
      }
    } else {
      var m, side, ch := OtherAnswers(g, call, p);
      var schedule := PassesAlone(ScriptsOf(g, [call]), call.root, m, p, side, ch);
      OneCall(g, call, p);
      OneCall(g, call, q);
      assert Returned(g, [call], schedule, p, 0) && !Begun(g, [call], schedule, q, 0);
    }
  }

  /** The exchange is a barrier. */
  lemma ExchangeIsABarrier(g: Group, calls: seq<Call>, schedule: seq<nat>, k: nat, p: nat, q: nat)
    requires AreCalls(g, calls) && k < |calls| && calls[k].Exchange? && q < g.n
    requires Returned(g, calls, schedule, p, k)
    ensures Begun(g, calls, schedule, q, k)
  {
    if p != q {
      WaitsForJoined(g, calls, schedule, k, p, q);
    } else {
      CallsAreParts(g, calls);
      var self := Channel(p, p, g.tag, g.comm);
      assert End(Sends, self) in AllUses(g, calls)[k];
      EntersFirst(AllUses(g, calls), RanksOf(g, calls), schedule, k, Sends, self);
    }
  }

  /** Once every rank has done its puts of call `k`, whoever is still looking for an entry of that
      call finds it. */
  lemma PendingQueriesSucceed(g: Group, calls: seq<Call>, schedule: seq<nat>, k: nat, p: nat)
    requires AreCalls(g, calls) && k < |calls| && p < g.n
    requires PutsDone(RanksOf(g, calls), At(g, calls, schedule), k) && !Returned(g, calls, schedule, p, k)
    ensures Moves(ScriptsOf(g, calls), At(g, calls, schedule), p)
  {
    CallsAreParts(g, calls);
    QueriesSucceed(AllUses(g, calls), RanksOf(g, calls), schedule, p, k);
  }

  /** As long as a rank has not finished, some rank can go on. */
  lemma SomeRankGoesOn(g: Group, calls: seq<Call>, schedule: seq<nat>, p: nat)
    requires AreCalls(g, calls) && Active(ScriptsOf(g, calls), At(g, calls, schedule), p)
    ensures exists q :: Moves(ScriptsOf(g, calls), At(g, calls, schedule), q)
  {
    CallsAreParts(g, calls);
    NeverStuck(AllUses(g, calls), RanksOf(g, calls), schedule, p);
  }

  /** When all ranks have returned from their last call, every entry put has been taken. */
  lemma EveryEntryIsTaken(g: Group, calls: seq<Call>, schedule: seq<nat>)
    requires AreCalls(g, calls) && Finished(ScriptsOf(g, calls), At(g, calls, schedule))
    ensures At(g, calls, schedule).store == Store([], [])
  {
    CallsAreParts(g, calls);
    FinishedLeavesNothing(AllUses(g, calls), RanksOf(g, calls), schedule);
  }
}
