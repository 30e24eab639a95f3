/** Collective calls: in every round each rank first puts entries and then looks for entries, one per
    channel it takes part in. What holds in every interleaving and for any rounds back to back. */
module CollectiveRounds {
  import opened MpiStore
  import opened MpiMatching

  /** One round of one rank. */
  datatype Part = Part(puts: seq<Action>, queries: seq<Action>)

  datatype End = End(side: Side, ch: Channel)

  /** The sides of channels that a round uses, once each. */
  type Uses = iset<End>

  function Round(part: Part): seq<Action> {
    part.puts + part.queries
  }

  /** The first `k` rounds of one rank. */
  function Upto(own: seq<Part>, k: nat): seq<Action>
    requires k <= |own|
  {
    if k == 0 then [] else Upto(own, k - 1) + Round(own[k - 1])
  }

  /** Where round `k` begins. */
  function Begin(own: seq<Part>, k: nat): nat
    requires k <= |own|
  {
    |Upto(own, k)|
  }

  function Script(own: seq<Part>): seq<Action> {
    Upto(own, |own|)
  }

  function ScriptsFor(ranks: seq<seq<Part>>): Scripts {
    seq(|ranks|, p requires 0 <= p < |ranks| => Script(ranks[p]))
  }

  /** How many of the first `k` rounds use a side of a channel. */
  ghost function Count(us: seq<Uses>, k: nat, side: Side, ch: Channel): nat
    requires k <= |us|
  {
    if k == 0 then 0 else Count(us, k - 1, side, ch) + (if End(side, ch) in us[k - 1] then 1 else 0)
  }

  ghost predicate PostsOnce(uses: Uses, p: nat, puts: seq<Action>, side: Side, ch: Channel) {
    |Posts(puts, side, ch)| == if End(side, ch) in uses && p == Poster(side, ch) then 1 else 0
  }

  ghost predicate TakesOnce(uses: Uses, p: nat, queries: seq<Action>, side: Side, ch: Channel) {
    Takes(queries, side, ch) == if End(side, ch) in uses && p == Taker(side, ch) then 1 else 0
  }

  /** Rank `p` puts one entry where it is the poster and takes one where it is the taker, and nothing
      else. */
  ghost predicate IsPart(uses: Uses, p: nat, part: Part) {
    && (forall i :: 0 <= i < |part.puts| ==> part.puts[i].Post?)
    && (forall i :: 0 <= i < |part.queries| ==> part.queries[i].Take?)
    && (forall side, ch :: PostsOnce(uses, p, part.puts, side, ch))
    && (forall side, ch :: TakesOnce(uses, p, part.queries, side, ch))
  }

  ghost predicate AreOwn(us: seq<Uses>, p: nat, own: seq<Part>) {
    |own| == |us| && forall k :: 0 <= k < |us| ==> IsPart(us[k], p, own[k])
  }

  /** Only channels between ranks that exist. */
  ghost predicate Inside(uses: Uses, n: nat, side: Side, ch: Channel) {
    End(side, ch) in uses ==> Poster(side, ch) < n && Taker(side, ch) < n
  }

  ghost predicate AllInside(uses: Uses, n: nat) {
    forall side, ch :: Inside(uses, n, side, ch)
  }

  ghost predicate AreParts(us: seq<Uses>, ranks: seq<seq<Part>>) {
    && (forall k :: 0 <= k < |us| ==> AllInside(us[k], |ranks|))
    && forall p :: 0 <= p < |ranks| ==> AreOwn(us, p, ranks[p])
  }

  // ----- Counting --------------------------------------------------------------------------

  lemma {:induction false} NoTakes(a: seq<Action>, side: Side, ch: Channel)
    requires forall i :: 0 <= i < |a| ==> a[i].Post?
    ensures Takes(a, side, ch) == 0
    decreases |a|
  {
    if a != [] { NoTakes(a[..|a| - 1], side, ch); }
  }

  lemma {:induction false} NoPosts(a: seq<Action>, side: Side, ch: Channel)
    requires forall i :: 0 <= i < |a| ==> a[i].Take?
    ensures Posts(a, side, ch) == []
    decreases |a|
  {
    if a != [] { NoPosts(a[..|a| - 1], side, ch); }
  }

  lemma RoundCounts(uses: Uses, p: nat, part: Part, side: Side, ch: Channel)
    requires IsPart(uses, p, part)
    ensures PostsOnce(uses, p, Round(part), side, ch) && TakesOnce(uses, p, Round(part), side, ch)
    ensures PostsOnce(uses, p, part.puts, side, ch) && TakesOnce(uses, p, part.queries, side, ch)
    ensures Takes(part.puts, side, ch) == 0 && Posts(part.queries, side, ch) == []
  {
    NoTakes(part.puts, side, ch);
    NoPosts(part.queries, side, ch);
    CountsConcat(part.puts, part.queries, side, ch);
    assert PostsOnce(uses, p, part.puts, side, ch) && TakesOnce(uses, p, part.queries, side, ch);
  }

  /** A round behind other actions. */
  lemma RoundAdds(front: seq<Action>, uses: Uses, p: nat, part: Part, side: Side, ch: Channel)
    requires IsPart(uses, p, part)
    ensures var n := if End(side, ch) in uses && p == Poster(side, ch) then 1 else 0;
      && |Posts(front + part.puts, side, ch)| == |Posts(front, side, ch)| + n
      && |Posts(front + Round(part), side, ch)| == |Posts(front, side, ch)| + n
    ensures Takes(front + Round(part), side, ch)
            == Takes(front, side, ch) + if End(side, ch) in uses && p == Taker(side, ch) then 1 else 0
  {
    RoundCounts(uses, p, part, side, ch);
    CountsConcat(front, part.puts, side, ch);
    CountsConcat(front, Round(part), side, ch);
  }

  /** What is put and taken in the first `k` rounds. */
  function PostsUpto(own: seq<Part>, k: nat, side: Side, ch: Channel): nat
    requires k <= |own|
  {
    |Posts(Upto(own, k), side, ch)|
  }

  function TakesUpto(own: seq<Part>, k: nat, side: Side, ch: Channel): nat
    requires k <= |own|
  {
    Takes(Upto(own, k), side, ch)
  }

  lemma NextUpto(us: seq<Uses>, p: nat, own: seq<Part>, k: nat, side: Side, ch: Channel)
    requires AreOwn(us, p, own) && k < |us|
    ensures PostsUpto(own, k + 1, side, ch)
            == PostsUpto(own, k, side, ch) + if End(side, ch) in us[k] && p == Poster(side, ch) then 1 else 0
    ensures TakesUpto(own, k + 1, side, ch)
            == TakesUpto(own, k, side, ch) + if End(side, ch) in us[k] && p == Taker(side, ch) then 1 else 0
  {
    RoundAdds(Upto(own, k), us[k], p, own[k], side, ch);
  }

  lemma {:induction false} UptoCounts(us: seq<Uses>, p: nat, own: seq<Part>, k: nat, side: Side, ch: Channel)
    requires AreOwn(us, p, own) && k <= |us|
    ensures PostsUpto(own, k, side, ch) == if p == Poster(side, ch) then Count(us, k, side, ch) else 0
    ensures TakesUpto(own, k, side, ch) == if p == Taker(side, ch) then Count(us, k, side, ch) else 0
    decreases k
  {
    if k > 0 {
      UptoCounts(us, p, own, k - 1, side, ch);
      NextUpto(us, p, own, k - 1, side, ch);
    }
  }

  lemma {:induction false} UptoPrefix(own: seq<Part>, k: nat, l: nat)
    requires k <= l <= |own|
    ensures Begin(own, k) <= Begin(own, l) && Upto(own, l)[..Begin(own, k)] == Upto(own, k)
    decreases l
  {
    if k < l {
      UptoPrefix(own, k, l - 1);
      assert (Upto(own, l - 1) + Round(own[l - 1]))[..Begin(own, k)] == Upto(own, l - 1)[..Begin(own, k)];
    }
  }

  lemma MiddlePrefix(all: seq<Action>, a: seq<Action>, b: seq<Action>, i: nat)
    requires |a + b| <= |all| && all[..|a + b|] == a + b && i <= |b|
    ensures all[..|a| + i] == a + b[..i] && (i < |b| ==> all[|a| + i] == b[i])
  {
    assert all[..|a| + i] == all[..|a + b|][..|a| + i];
    assert i < |b| ==> all[|a| + i] == all[..|a + b|][|a| + i];
  }

  /** Position `i` of round `k`. */
  lemma ActionAt(own: seq<Part>, k: nat, i: nat)
    requires k < |own| && i <= |Round(own[k])|
    ensures Begin(own, k) + i <= Begin(own, k + 1) <= |Script(own)|
    ensures Begin(own, k + 1) == Begin(own, k) + |Round(own[k])|
    ensures Script(own)[..Begin(own, k) + i] == Upto(own, k) + Round(own[k])[..i]
    ensures i < |Round(own[k])| ==> Script(own)[Begin(own, k) + i] == Round(own[k])[i]
  {
    UptoPrefix(own, k + 1, |own|);
    MiddlePrefix(Script(own), Upto(own, k), Round(own[k]), i);
  }

  lemma {:induction false} Locate(own: seq<Part>, l: nat, d: nat) returns (k: nat, i: nat)
    requires l <= |own| && d < Begin(own, l)
    ensures k < l && i < |Round(own[k])| && d == Begin(own, k) + i
    decreases l
  {
    if d < Begin(own, l - 1) {
      k, i := Locate(own, l - 1, d);
    } else {
      k, i := l - 1, d - Begin(own, l - 1);
    }
  }

  lemma BehindPrefix(all: seq<Action>, front: seq<Action>, d: nat, side: Side, ch: Channel)
    requires |front| <= d <= |all| && all[..|front|] == front
    ensures |Posts(all[..d], side, ch)| >= |Posts(front, side, ch)| && Takes(all[..d], side, ch) >= Takes(front, side, ch)
  {
    CountsGrow(all, |front|, d, side, ch);
  }

  /** Up to the beginning of round `k` a rank has put no more than its entries of the earlier ones. */
  lemma PutsSoFar(us: seq<Uses>, p: nat, own: seq<Part>, k: nat, d: nat, side: Side, ch: Channel)
    requires AreOwn(us, p, own) && k <= |us| && d <= Begin(own, k)
    ensures Begin(own, k) <= |Script(own)| && |Posts(Script(own)[..d], side, ch)| <= Count(us, k, side, ch)
  {
    UptoPrefix(own, k, |own|);
    UptoCounts(us, p, own, k, side, ch);
    CountsGrow(Script(own), d, Begin(own, k), side, ch);
  }

  /** Once its puts of round `k` are done, the poster has put its entries of that round, too. */
  lemma PutsAreDone(us: seq<Uses>, p: nat, own: seq<Part>, k: nat, d: nat, side: Side, ch: Channel)
    requires AreOwn(us, p, own) && k < |us| && p == Poster(side, ch)
    requires Begin(own, k) + |own[k].puts| <= d <= |Script(own)|
    ensures |Posts(Script(own)[..d], side, ch)| >= Count(us, k + 1, side, ch)
  {
    PutsPrefix(own, k);
    BehindPrefix(Script(own), Upto(own, k) + own[k].puts, d, side, ch);
    UptoCounts(us, p, own, k, side, ch);
    RoundAdds(Upto(own, k), us[k], p, own[k], side, ch);
  }

  lemma PutsPrefix(own: seq<Part>, k: nat)
    requires k < |own|
    ensures Begin(own, k) + |own[k].puts| <= |Script(own)|
    ensures Script(own)[..Begin(own, k) + |own[k].puts|] == Upto(own, k) + own[k].puts
  {
    ActionAt(own, k, |own[k].puts|);
    assert Round(own[k])[..|own[k].puts|] == own[k].puts;
  }

  /** At the end of round `k` the taker has taken its entries of the rounds up to it. */
  lemma TakesAreDone(us: seq<Uses>, p: nat, own: seq<Part>, k: nat, d: nat, side: Side, ch: Channel)
    requires AreOwn(us, p, own) && k <= |us| && p == Taker(side, ch) && Begin(own, k) <= d <= |Script(own)|
    ensures Takes(Script(own)[..d], side, ch) >= Count(us, k, side, ch)
  {
    UptoPrefix(own, k, |own|);
    UptoCounts(us, p, own, k, side, ch);
    BehindPrefix(Script(own), Upto(own, k), d, side, ch);
  }

  lemma TakesItself(r: seq<Action>, i: nat)
    requires i < |r| && r[i].Take?
    ensures Takes(r[..i], r[i].side, r[i].ch) + 1 <= Takes(r, r[i].side, r[i].ch)
  {
    var a := r[i];
    CountsGrow(r, i + 1, |r|, a.side, a.ch);
    PostsSnoc(r[..i], a, a.side, a.ch);
    assert r[..|r|] == r && r[..i + 1] == r[..i] + [a];
  }

  lemma PostsItself(r: seq<Action>, i: nat)
    requires i < |r| && r[i].Post?
    ensures |Posts(r, r[i].side, r[i].ch)| >= 1
  {
    var a := r[i];
    CountsGrow(r, i + 1, |r|, a.side, a.ch);
    PostsSnoc(r[..i], a, a.side, a.ch);
    assert r[..|r|] == r && r[..i + 1] == r[..i] + [a];
  }

  /** Every action of a round is the rank's own, on a side in use, and no entry is taken twice. */
  lemma ActionIsOwn(uses: Uses, p: nat, part: Part, i: nat)
    requires IsPart(uses, p, part) && i < |Round(part)|
    ensures var a := Round(part)[i]; Owns(p, a) && End(a.side, a.ch) in uses && (a.Post? <==> i < |part.puts|)
    ensures Round(part)[i].Take? ==> Takes(Round(part)[..i], Round(part)[i].side, Round(part)[i].ch) == 0
  {
    var a := Round(part)[i];
    RoundCounts(uses, p, part, a.side, a.ch);
    if a.Post? { PostsItself(Round(part), i); } else { TakesItself(Round(part), i); }
  }

  lemma AllOwned(us: seq<Uses>, ranks: seq<seq<Part>>)
    requires AreParts(us, ranks)
    ensures Owned(ScriptsFor(ranks))
  {
    var scripts := ScriptsFor(ranks);
    forall p, d | 0 <= p < |scripts| && 0 <= d < |scripts[p]| ensures Owns(p, scripts[p][d]) {
      assert AreOwn(us, p, ranks[p]);
      var k, i := Locate(ranks[p], |us|, d);
      ActionAt(ranks[p], k, i);
      ActionIsOwn(us[k], p, ranks[p][k], i);
    }
  }

  // ----- What every interleaving keeps -----------------------------------------------------

  ghost predicate Left(ranks: seq<seq<Part>>, c: Config, p: nat, k: nat) {
    p < |ranks| == |c.done| && k < |ranks[p]| && c.done[p] >= Begin(ranks[p], k + 1)
  }

  ghost predicate Entered(ranks: seq<seq<Part>>, c: Config, p: nat, k: nat) {
    p < |ranks| == |c.done| && k < |ranks[p]| && c.done[p] > Begin(ranks[p], k)
  }

  lemma TakenByNow(us: seq<Uses>, ranks: seq<seq<Part>>, c: Config, k: nat, side: Side, ch: Channel)
    requires Taker(side, ch) < |ranks| && AreOwn(us, Taker(side, ch), ranks[Taker(side, ch)]) && Placed(ScriptsFor(ranks), c)
    requires k <= |us| && c.done[Taker(side, ch)] >= Begin(ranks[Taker(side, ch)], k)
    ensures Taken(ScriptsFor(ranks), c, side, ch) >= Count(us, k, side, ch)
  {
    var p := Taker(side, ch);
    TakesAreDone(us, p, ranks[p], k, c.done[p], side, ch);
  }

  lemma PostedByNow(us: seq<Uses>, ranks: seq<seq<Part>>, c: Config, k: nat, side: Side, ch: Channel)
    requires Poster(side, ch) < |ranks| && AreOwn(us, Poster(side, ch), ranks[Poster(side, ch)]) && Placed(ScriptsFor(ranks), c)
    requires k <= |us| && c.done[Poster(side, ch)] <= Begin(ranks[Poster(side, ch)], k)
    ensures |Posted(ScriptsFor(ranks), c, side, ch)| <= Count(us, k, side, ch)
  {
    var q := Poster(side, ch);
    PutsSoFar(us, q, ranks[q], k, c.done[q], side, ch);
  }

  /** Whoever has left round `k` with an entry from `q` has found `q` inside that round. */
  lemma EntersFirst(us: seq<Uses>, ranks: seq<seq<Part>>, schedule: seq<nat>, k: nat, side: Side, ch: Channel)
    requires AreParts(us, ranks) && k < |us| && End(side, ch) in us[k]
    requires Left(ranks, Run(ScriptsFor(ranks), schedule), Taker(side, ch), k)
    ensures Entered(ranks, Run(ScriptsFor(ranks), schedule), Poster(side, ch), k)
  {
    var scripts, p, q := ScriptsFor(ranks), Taker(side, ch), Poster(side, ch);
    var c := Run(scripts, schedule);
    assert AllInside(us[k], |ranks|) && Inside(us[k], |ranks|, side, ch);
    AllOwned(us, ranks);
    ChannelsAreQueues(scripts, schedule, side, ch);
    assert AreOwn(us, p, ranks[p]) && AreOwn(us, q, ranks[q]);
    TakenByNow(us, ranks, c, k + 1, side, ch);
    if c.done[q] <= Begin(ranks[q], k) {
      PostedByNow(us, ranks, c, k, side, ch);
      assert false;
    }
  }

  /** Every rank has done its puts of round `k`. */
  ghost predicate PutsDone(ranks: seq<seq<Part>>, c: Config, k: nat) {
    && |c.done| == |ranks|
    && forall q :: 0 <= q < |ranks| && k < |ranks[q]| ==> c.done[q] >= Begin(ranks[q], k) + |ranks[q][k].puts|
  }

  /** Then whoever is still looking for an entry of that round finds it. */
  lemma QueriesSucceed(us: seq<Uses>, ranks: seq<seq<Part>>, schedule: seq<nat>, p: nat, k: nat)
    requires AreParts(us, ranks) && p < |ranks| && k < |us| && PutsDone(ranks, Run(ScriptsFor(ranks), schedule), k)
    requires !Left(ranks, Run(ScriptsFor(ranks), schedule), p, k)
    ensures Moves(ScriptsFor(ranks), Run(ScriptsFor(ranks), schedule), p)
  {
    var scripts, own := ScriptsFor(ranks), ranks[p];
    var c := Run(scripts, schedule);
    assert AreOwn(us, p, own);
    var i := c.done[p] - Begin(own, k);
    ActionAt(own, k, i);
    ActionIsOwn(us[k], p, own[k], i);
    var a := Round(own[k])[i];
    AllOwned(us, ranks);
    ChannelsAreQueues(scripts, schedule, a.side, a.ch);
    CountsInRound(us, ranks, c, p, k, i);
    TakeSucceeds(scripts, schedule, p, a.side, a.ch);
  }

  /** A rank that queries in round `k` has not yet taken what has been put for it. */
  lemma CountsInRound(us: seq<Uses>, ranks: seq<seq<Part>>, c: Config, p: nat, k: nat, i: nat)
    requires AreParts(us, ranks) && p < |ranks| && k < |us| == |ranks[p]| && Placed(ScriptsFor(ranks), c)
    requires PutsDone(ranks, c, k) && i < |Round(ranks[p][k])| && c.done[p] == Begin(ranks[p], k) + i
    requires Round(ranks[p][k])[i].Take?
    ensures var a, scripts := Round(ranks[p][k])[i], ScriptsFor(ranks);
      Taken(scripts, c, a.side, a.ch) < |Posted(scripts, c, a.side, a.ch)|
  {
    var own, a := ranks[p], Round(ranks[p][k])[i];
    assert AreOwn(us, p, own);
    ActionIsOwn(us[k], p, own[k], i);
    TakenBefore(us, ranks, c, p, k, i);
    PostedBehind(us, ranks, c, k, a.side, a.ch);
  }

  lemma TakenBefore(us: seq<Uses>, ranks: seq<seq<Part>>, c: Config, p: nat, k: nat, i: nat)
    requires p < |ranks| && k < |us| && AreOwn(us, p, ranks[p]) && Placed(ScriptsFor(ranks), c)
    requires i < |Round(ranks[p][k])| && c.done[p] == Begin(ranks[p], k) + i && Round(ranks[p][k])[i].Take?
    ensures var a := Round(ranks[p][k])[i];
      && Taken(ScriptsFor(ranks), c, a.side, a.ch) == Count(us, k, a.side, a.ch)
      && Count(us, k + 1, a.side, a.ch) == Count(us, k, a.side, a.ch) + 1
  {
    ActionIsOwn(us[k], p, ranks[p][k], i);
    ActionAt(ranks[p], k, i);
    TakesInPrefix(us, p, ranks[p], k, i);
  }

  lemma PostedBehind(us: seq<Uses>, ranks: seq<seq<Part>>, c: Config, k: nat, side: Side, ch: Channel)
    requires AreParts(us, ranks) && k < |us| && Placed(ScriptsFor(ranks), c) && PutsDone(ranks, c, k) && End(side, ch) in us[k]
    ensures |Posted(ScriptsFor(ranks), c, side, ch)| >= Count(us, k + 1, side, ch)
  {
    var q := Poster(side, ch);
    assert AllInside(us[k], |ranks|) && Inside(us[k], |ranks|, side, ch);
    assert AreOwn(us, q, ranks[q]);
    PutsAreDone(us, q, ranks[q], k, c.done[q], side, ch);
  }

  lemma TakesInPrefix(us: seq<Uses>, p: nat, own: seq<Part>, k: nat, i: nat)
    requires AreOwn(us, p, own) && k < |us| && i < |Round(own[k])| && Round(own[k])[i].Take?
    ensures var a := Round(own[k])[i];
      && Takes(Upto(own, k) + Round(own[k])[..i], a.side, a.ch) == Count(us, k, a.side, a.ch)
      && Count(us, k + 1, a.side, a.ch) == Count(us, k, a.side, a.ch) + 1
  {
    var a := Round(own[k])[i];
    ActionIsOwn(us[k], p, own[k], i);
    UptoCounts(us, p, own, k, a.side, a.ch);
    CountsConcat(Upto(own, k), Round(own[k])[..i], a.side, a.ch);
  }

  /** Rank `p` is in round `k`, or behind the last one if that is `k`. */
  ghost predicate InRound(ranks: seq<seq<Part>>, c: Config, p: nat, k: nat) {
    && p < |ranks| == |c.done| && k <= |ranks[p]| && Begin(ranks[p], k) <= c.done[p]
    && (k < |ranks[p]| ==> c.done[p] < Begin(ranks[p], k + 1))
  }

  lemma RoundOf(ranks: seq<seq<Part>>, c: Config, p: nat) returns (k: nat)
    requires p < |ranks| == |c.done| && c.done[p] <= |Script(ranks[p])|
    ensures InRound(ranks, c, p, k)
  {
    if c.done[p] == |Script(ranks[p])| {
      k := |ranks[p]|;
    } else {
      var i;
      k, i := Locate(ranks[p], |ranks[p]|, c.done[p]);
    }
  }

  ghost predicate NoneBefore(ranks: seq<seq<Part>>, c: Config, n: nat, k: nat) {
    n <= |ranks| == |c.done| && forall q :: 0 <= q < n ==> k <= |ranks[q]| && c.done[q] >= Begin(ranks[q], k)
  }

  lemma NoneBeforeEarlier(ranks: seq<seq<Part>>, c: Config, n: nat, k: nat, k': nat)
    requires NoneBefore(ranks, c, n, k) && k' <= k
    ensures NoneBefore(ranks, c, n, k')
  {
    forall q | 0 <= q < n ensures k' <= |ranks[q]| && c.done[q] >= Begin(ranks[q], k') {
      UptoPrefix(ranks[q], k', k);
    }
  }

  /** The earliest round that a rank among the first `n` is in. */
  lemma {:induction false} Slowest(ranks: seq<seq<Part>>, c: Config, m: nat, n: nat) returns (p: nat, k: nat)
    requires 0 < n <= |ranks| == |c.done|
    requires forall q :: 0 <= q < n ==> |ranks[q]| == m && c.done[q] <= |Script(ranks[q])|
    ensures p < n && InRound(ranks, c, p, k) && NoneBefore(ranks, c, n, k)
    decreases n
  {
    p := n - 1;
    k := RoundOf(ranks, c, p);
    if n > 1 {
      var p', k' := Slowest(ranks, c, m, n - 1);
      if k' < k {
        UptoPrefix(ranks[p], k', k);
        p, k := p', k';
      } else {
        NoneBeforeEarlier(ranks, c, n - 1, k', k);
      }
    }
  }

  /** A put never waits. */
  lemma PutMoves(us: seq<Uses>, ranks: seq<seq<Part>>, c: Config, q: nat, k: nat)
    requires AreParts(us, ranks) && q < |ranks| == |c.done| && k < |us| == |ranks[q]|
    requires Begin(ranks[q], k) <= c.done[q] < Begin(ranks[q], k) + |ranks[q][k].puts|
    ensures Moves(ScriptsFor(ranks), c, q)
  {
    assert AreOwn(us, q, ranks[q]) && IsPart(us[k], q, ranks[q][k]);
    ActionAt(ranks[q], k, c.done[q] - Begin(ranks[q], k));
  }

  /** As long as a rank has not finished, some rank can go on. */
  lemma NeverStuck(us: seq<Uses>, ranks: seq<seq<Part>>, schedule: seq<nat>, p: nat)
    requires AreParts(us, ranks) && Active(ScriptsFor(ranks), Run(ScriptsFor(ranks), schedule), p)
    ensures exists q :: Moves(ScriptsFor(ranks), Run(ScriptsFor(ranks), schedule), q)
  {
    var scripts := ScriptsFor(ranks);
    var c := Run(scripts, schedule);
    AllOwned(us, ranks);
    ChannelsAreQueues(scripts, schedule, Sends, Channel(0, 0, 0, 0));
    assert forall q :: 0 <= q < |ranks| ==> AreOwn(us, q, ranks[q]);
    var s, k := Slowest(ranks, c, |us|, |ranks|);
    SomeMoves(us, ranks, schedule, p, s, k);
  }

  lemma SomeMoves(us: seq<Uses>, ranks: seq<seq<Part>>, schedule: seq<nat>, p: nat, s: nat, k: nat)
    requires AreParts(us, ranks) && Active(ScriptsFor(ranks), Run(ScriptsFor(ranks), schedule), p)
    requires InRound(ranks, Run(ScriptsFor(ranks), schedule), s, k)
    requires NoneBefore(ranks, Run(ScriptsFor(ranks), schedule), |ranks|, k)
    ensures exists q :: Moves(ScriptsFor(ranks), Run(ScriptsFor(ranks), schedule), q)
  {
    var c := Run(ScriptsFor(ranks), schedule);
    assert AreOwn(us, p, ranks[p]) && AreOwn(us, s, ranks[s]);
    assert k < |us|;
    if PutsDone(ranks, c, k) {
      QueriesSucceed(us, ranks, schedule, s, k);
    } else {
      var q :| 0 <= q < |ranks| && k < |ranks[q]| && c.done[q] < Begin(ranks[q], k) + |ranks[q][k].puts|;
      assert AreOwn(us, q, ranks[q]);
      PutMoves(us, ranks, c, q, k);
    }
  }

  /** When all ranks have returned from their last round, every entry put has been taken. */
  lemma FinishedLeavesNothing(us: seq<Uses>, ranks: seq<seq<Part>>, schedule: seq<nat>)
    requires AreParts(us, ranks) && Finished(ScriptsFor(ranks), Run(ScriptsFor(ranks), schedule))
    ensures Run(ScriptsFor(ranks), schedule).store == Store([], [])
  {
    var scripts := ScriptsFor(ranks);
    var c := Run(scripts, schedule);
    AllOwned(us, ranks);
    ChannelsAreQueues(scripts, schedule, Sends, Channel(0, 0, 0, 0));
    forall p | 0 <= p < |ranks| ensures c.done[p] == |scripts[p]| {
      assert !Active(scripts, c, p);
    }
    forall ch ensures NoneLeft(c.store, ch) {
      ChannelsAreQueues(scripts, schedule, Sends, ch);
      ChannelsAreQueues(scripts, schedule, Recvs, ch);
      ChannelIsEmpty(us, ranks, c, Sends, ch);
      ChannelIsEmpty(us, ranks, c, Recvs, ch);
    }
    if c.store != Store([], []) {
      var ch := SomeLeft(c.store);
      assert false;
    }
  }

  lemma {:induction false} OutsideUnused(us: seq<Uses>, n: nat, k: nat, side: Side, ch: Channel)
    requires k <= |us| && forall j :: 0 <= j < |us| ==> AllInside(us[j], n)
    requires Poster(side, ch) >= n || Taker(side, ch) >= n
    ensures Count(us, k, side, ch) == 0
    decreases k
  {
    if k > 0 {
      OutsideUnused(us, n, k - 1, side, ch);
      assert AllInside(us[k - 1], n) && Inside(us[k - 1], n, side, ch);
    }
  }

  lemma ChannelIsEmpty(us: seq<Uses>, ranks: seq<seq<Part>>, c: Config, side: Side, ch: Channel)
    requires AreParts(us, ranks)
    requires var scripts := ScriptsFor(ranks);
      && Placed(scripts, c) && Queued(scripts, c, side, ch) && forall p :: 0 <= p < |ranks| ==> c.done[p] == |scripts[p]|
    ensures OnChannel(List(c.store, side), ch) == []
  {
    var scripts, p, q := ScriptsFor(ranks), Poster(side, ch), Taker(side, ch);
    if p >= |ranks| || q >= |ranks| {
      OutsideUnused(us, |ranks|, |us|, side, ch);
    }
    if p < |ranks| {
      assert AreOwn(us, p, ranks[p]) && Past(scripts, c, p) == scripts[p];
      UptoCounts(us, p, ranks[p], |us|, side, ch);
    }
    if q < |ranks| {
      assert AreOwn(us, q, ranks[q]) && Past(scripts, c, q) == scripts[q];
      UptoCounts(us, q, ranks[q], |us|, side, ch);
    }
  }
}
