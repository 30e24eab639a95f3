/** The number of keys that all threads have touched: an intersection of sorted key lists, computed
    through two buffers that change roles from thread to thread. */
module SharedKeys {
  import opened Basics

  ghost predicate Increasing(s: seq<nat>) {
    forall i, j :: 0 <= i < j < |s| ==> s[i] < s[j]
  }

  /** The intersection of two sorted ranges as the library computes it. */
  function Merge(a: seq<nat>, b: seq<nat>): (r: seq<nat>)
    ensures |r| <= |a|
    decreases |a| + |b|
  {
    if a == [] || b == [] then []
    else if a[0] < b[0] then Merge(a[1..], b)
    else if b[0] < a[0] then Merge(a, b[1..])
    else [a[0]] + Merge(a[1..], b[1..])
  }

  lemma {:induction false} MergeKeys(a: seq<nat>, b: seq<nat>, k: nat)
    requires Increasing(a) && Increasing(b)
    ensures k in Merge(a, b) <==> k in a && k in b
    decreases |a| + |b|
  {
    if a != [] && b != [] {
      assert a == [a[0]] + a[1..] && b == [b[0]] + b[1..];
      if a[0] < b[0] {
        MergeKeys(a[1..], b, k);
      } else if b[0] < a[0] {
        MergeKeys(a, b[1..], k);
      } else {
        MergeKeys(a[1..], b[1..], k);
      }
    }
  }

  lemma {:induction false} MergeIncreasing(a: seq<nat>, b: seq<nat>)
    requires Increasing(a) && Increasing(b)
    ensures Increasing(Merge(a, b)) && forall i :: 0 <= i < |Merge(a, b)| ==> a[0] <= Merge(a, b)[i]
    decreases |a| + |b|
  {
    if a != [] && b != [] {
      if a[0] < b[0] {
        MergeIncreasing(a[1..], b);
      } else if b[0] < a[0] {
        MergeIncreasing(a, b[1..]);
      } else {
        MergeIncreasing(a[1..], b[1..]);
      }
    }
  }

  // ----- The two buffers -------------------------------------------------------------------

  /** The state behind some threads, unless a merge has written past the end of its target. */
  datatype Buffers = Overflow | Buffers(out: seq<seq<nat>>, realSize: nat)

  /** A thread's sorted keys count if it was initialised. */
  datatype Thread = Thread(initialised: bool, keys: seq<nat>)

  ghost predicate AllIncreasing(threads: seq<Thread>) {
    forall i :: 0 <= i < |threads| ==> Increasing(threads[i].keys)
  }

  /** A second buffer as large as the first thread's map, filled with zeros. */
  function Zeros(n: nat): seq<nat> {
    seq(n, _ => 0)
  }

  function First(threads: seq<Thread>): Buffers
    requires |threads| >= 2
  {
    Buffers([Merge(threads[0].keys, threads[1].keys), Zeros(|threads[0].keys|)], 2)
  }

  /** Thread `i` reads the buffer of its parity and writes the other one. */
  function Next(b: Buffers, i: nat, t: Thread): Buffers
    requires b.Buffers? ==> |b.out| == 2
  {
    if b.Overflow? || !t.initialised then b
    else
      var r := Merge(b.out[i % 2], t.keys);
      if |r| > |b.out[(i + 1) % 2]| then Overflow else Buffers(b.out[(i + 1) % 2 := r], b.realSize + 1)
  }

  function After(threads: seq<Thread>, n: nat): (b: Buffers)
    requires 2 <= n <= |threads|
    ensures b.Buffers? ==> |b.out| == 2
  {
    if n == 2 then First(threads) else Next(After(threads, n - 1), n - 1, threads[n - 1])
  }

  /** The reported number: the size of the buffer picked by the parity of the number of threads seen. */
  function Shared(threads: seq<Thread>): Option<nat>
    requires |threads| >= 2
  {
    var b := After(threads, |threads|);
    if b.Overflow? then None else Some(|b.out[b.realSize % 2]|)
  }

  /** The loop over the threads. */
  method ComputeShared(threads: seq<Thread>) returns (r: Option<nat>)
    requires |threads| >= 2
    ensures r == Shared(threads)
  {
    var out := [Merge(threads[0].keys, threads[1].keys), Zeros(|threads[0].keys|)];
    var realSize: nat := 2;
    var i: nat := 2;
    while i < |threads|
      invariant 2 <= i <= |threads| && |out| == 2 && After(threads, i) == Buffers(out, realSize)
    {
      if threads[i].initialised {
        var merged := Merge(out[i % 2], threads[i].keys);
        if |merged| > |out[(i + 1) % 2]| {
          OverflowStays(threads, i + 1, |threads|);
          return None;
        }
        out := out[(i + 1) % 2 := merged];
        realSize := realSize + 1;
      }
      i := i + 1;
    }
    r := Some(|out[realSize % 2]|);
  }

  lemma {:induction false} OverflowStays(threads: seq<Thread>, n: nat, m: nat)
    requires 2 <= n <= m <= |threads| && After(threads, n).Overflow?
    ensures After(threads, m).Overflow?
    decreases m
  {
    if n < m {
      OverflowStays(threads, n, m - 1);
    }
  }

  // ----- What is meant ---------------------------------------------------------------------

  /** The keys common to the initialised ones of the first `n` threads. */
  function Common(threads: seq<Thread>, n: nat): seq<nat>
    requires 2 <= n <= |threads|
  {
    if n == 2 then Merge(threads[0].keys, threads[1].keys)
    else if threads[n - 1].initialised then Merge(Common(threads, n - 1), threads[n - 1].keys)
    else Common(threads, n - 1)
  }

  lemma {:induction false} CommonKeys(threads: seq<Thread>, n: nat, k: nat)
    requires 2 <= n <= |threads| && AllIncreasing(threads)
    ensures Increasing(Common(threads, n))
    ensures k in Common(threads, n) <==>
              forall i :: 0 <= i < n && (i < 2 || threads[i].initialised) ==> k in threads[i].keys
    decreases n
  {
    if n == 2 {
      MergeKeys(threads[0].keys, threads[1].keys, k);
      MergeIncreasing(threads[0].keys, threads[1].keys);
    } else {
      CommonKeys(threads, n - 1, k);
      if threads[n - 1].initialised {
        MergeKeys(Common(threads, n - 1), threads[n - 1].keys, k);
        MergeIncreasing(Common(threads, n - 1), threads[n - 1].keys);
      }
    }
  }

  /** The number of initialised threads among the first `n`; the first two count as such. */
  function Seen(init: seq<bool>, n: nat): nat
    requires 2 <= n <= |init|
  {
    if n == 2 then 2 else Seen(init, n - 1) + (if init[n - 1] then 1 else 0)
  }

  /** If thread `i` is initialised, it has the parity of the number of initialised threads before it. */
  predicate InTurn(init: seq<bool>, i: nat)
    requires 2 <= i < |init|
  {
    init[i] ==> i % 2 == Seen(init, i) % 2
  }

  /** With no gaps between the initialised threads that is always so. */
  ghost predicate Alternates(init: seq<bool>)
    requires |init| >= 2
  {
    forall i :: 2 <= i < |init| ==> InTurn(init, i)
  }

  function Inits(threads: seq<Thread>): seq<bool> {
    seq(|threads|, i requires 0 <= i < |threads| => threads[i].initialised)
  }

  lemma {:induction false} SeenInPrefix(init: seq<bool>, n: nat, p: nat)
    requires 2 <= n <= |init| && 2 <= p <= |init| && forall i :: 2 <= i < |init| ==> (init[i] <==> i < p)
    ensures Seen(init, n) == if n < p then n else p
    decreases n
  {
    if n > 2 {
      SeenInPrefix(init, n - 1, p);
    }
  }

  /** Without gaps the parities alternate. */
  lemma PrefixAlternates(init: seq<bool>, p: nat)
    requires 2 <= p <= |init| && forall i :: 2 <= i < |init| ==> (init[i] <==> i < p)
    ensures Alternates(init)
  {
    forall i | 2 <= i < |init| ensures InTurn(init, i) {
      SeenInPrefix(init, i, p);
    }
  }

  // ----- When the number is right ----------------------------------------------------------

  /** As long as the parities alternate, the buffer that is read next holds the common keys, and the
      other one is large enough to be written. */
  lemma {:induction false} BuffersTakeTurns(threads: seq<Thread>, n: nat)
    requires 2 <= n <= |threads|
    requires forall i :: 2 <= i < n ==> InTurn(Inits(threads), i)
    ensures var b, j := After(threads, n), Seen(Inits(threads), n);
      && b.Buffers? && b.realSize == j && b.out[j % 2] == Common(threads, n)
      && |Common(threads, n)| <= |b.out[(j + 1) % 2]|
    decreases n
  {
    if n > 2 {
      BuffersTakeTurns(threads, n - 1);
      assert InTurn(Inits(threads), n - 1);
    }
  }

  /** The threads with only key 5, one of which may have none. */
  function OneKey(init: seq<bool>, empty: nat): seq<Thread> {
    seq(|init|, i requires 0 <= i < |init| => Thread(init[i], if i == empty then [] else [5]))
  }

  lemma {:induction false} OneKeyCommon(init: seq<bool>, empty: nat, n: nat)
    requires 2 <= n <= |init| && 2 <= empty < |init| && init[empty]
    ensures Common(OneKey(init, empty), n) == if empty < n then [] else [5]
    decreases n
  {
    if n > 2 {
      OneKeyCommon(init, empty, n - 1);
    }
    assert Merge([5], [5]) == [5] + Merge([], []);
  }

  lemma {:induction false} NoneBetween(threads: seq<Thread>, p: nat, n: nat)
    requires 2 <= p <= n <= |threads| && forall i :: p <= i < n ==> !threads[i].initialised
    ensures After(threads, n) == After(threads, p) && Seen(Inits(threads), n) == Seen(Inits(threads), p)
    decreases n
  {
    if p < n {
      NoneBetween(threads, p, n - 1);
    }
  }

  /** Behind the thread without keys one buffer is empty, and the other still has the result before. */
  lemma EmptyResult(init: seq<bool>, p: nat)
    requires 2 <= p < |init| && init[p] && forall k :: 2 <= k <= p ==> InTurn(init, k)
    ensures var b, j := After(OneKey(init, p), p + 1), Seen(init, p);
      b.Buffers? && b.out[j % 2] == [5] && b.out[(j + 1) % 2] == []
  {
    var threads := OneKey(init, p);
    assert Inits(threads) == init;
    BuffersTakeTurns(threads, p);
    OneKeyCommon(init, p, p);
    assert Merge([5], []) == [] && InTurn(init, p);
  }

  /** A thread of the wrong parity behind thread `p`: it reads what was there before `p`, and writes
      that over the smaller result of `p`. */
  lemma WrongTurnOverflows(init: seq<bool>, p: nat, i: nat)
    requires 2 <= p < i < |init| && init[p] && !InTurn(init, i)
    requires (forall k :: p < k < i ==> !init[k]) && forall k :: 2 <= k < i ==> InTurn(init, k)
    ensures Shared(OneKey(init, p)) == None
  {
    var threads := OneKey(init, p);
    BeforeWrongTurn(init, p, i);
    EmptyResult(init, p);
    ReadsStale(After(threads, i), i, Seen(init, p), threads[i]);
    OverflowStays(threads, i + 1, |threads|);
  }

  lemma BeforeWrongTurn(init: seq<bool>, p: nat, i: nat)
    requires 2 <= p < i < |init| && init[p] && !InTurn(init, i) && forall k :: p < k < i ==> !init[k]
    ensures var threads := OneKey(init, p);
      After(threads, i) == After(threads, p + 1) && i % 2 == Seen(init, p) % 2 && threads[i] == Thread(true, [5])
  {
    var threads := OneKey(init, p);
    assert Inits(threads) == init;
    NoneBetween(threads, p + 1, i);
    OtherParity(i, Seen(init, p));
  }

  lemma OtherParity(i: nat, j: nat)
    requires i % 2 != (j + 1) % 2
    ensures i % 2 == j % 2
  {
  }

  lemma ReadsStale(b: Buffers, i: nat, j: nat, t: Thread)
    requires b.Buffers? && |b.out| == 2 && b.out[j % 2] == [5] && b.out[(j + 1) % 2] == []
    requires i % 2 == j % 2 && t == Thread(true, [5])
    ensures Next(b, i, t).Overflow?
  {
    assert Merge([5], [5]) == [5] + Merge([], []);
  }

  /** Two keys in the first thread, one of them in all. */
  function TwoKeys(init: seq<bool>): seq<Thread> {
    seq(|init|, i requires 0 <= i < |init| => Thread(init[i], if i == 0 then [5, 6] else [5]))
  }

  lemma {:induction false} TwoKeysCommon(init: seq<bool>, n: nat)
    requires 2 <= n <= |init|
    ensures Common(TwoKeys(init), n) == [5]
    decreases n
  {
    assert Merge([5], [5]) == [5] + Merge([], []);
    assert Merge([5, 6], [5]) == [5] + Merge([6], []);
    if n > 2 {
      TwoKeysCommon(init, n - 1);
    }
  }

  lemma ZeroesMerge()
    ensures Merge([0, 0], [5]) == [] && Merge([5, 6], [5]) == [5] && Merge([5], [5]) == [5] && Merge([], [5]) == []
  {
    assert [0, 0][1..] == [0] && Merge([0], [5]) == Merge([], [5]);
    assert Merge([5, 6], [5]) == [5] + Merge([6], []) && Merge([5], [5]) == [5] + Merge([], []);
  }

  /** What a thread with only key 5 makes of a lost result. */
  lemma StaysLost(b: Buffers, i: nat)
    requires b.Buffers? && |b.out| == 2 && b.out[0] == [] && (b.out[1] == [] || b.out[1] == [0, 0])
    ensures var b' := Next(b, i, Thread(true, [5]));
      b'.Buffers? && |b'.out| == 2 && b'.out[0] == [] && (b'.out[1] == [] || b'.out[1] == [0, 0])
  {
    ZeroesMerge();
  }

  /** If already the third thread has the wrong parity, the first result is lost to the zeros. */
  lemma {:induction false} WrongStartLoses(init: seq<bool>, i: nat, n: nat)
    requires 2 <= i < n <= |init| && init[i] && i % 2 == 1 && forall k :: 2 <= k < i ==> !init[k]
    ensures var b := After(TwoKeys(init), n);
      b.Buffers? && b.out[0] == [] && (b.out[1] == [] || b.out[1] == [0, 0])
    decreases n
  {
    var threads := TwoKeys(init);
    if n == i + 1 {
      NoneBetween(threads, 2, i);
      ZeroesMerge();
      assert Zeros(2) == [0, 0];
    } else {
      WrongStartLoses(init, i, n - 1);
      StaysLost(After(threads, n - 1), n - 1);
    }
  }

  ghost predicate RightForAll(init: seq<bool>)
    requires |init| >= 2
  {
    forall threads :: Inits(threads) == init && AllIncreasing(threads) ==> IsRight(threads)
  }

  ghost predicate IsRight(threads: seq<Thread>) {
    |threads| >= 2 && Shared(threads) == Some(|Common(threads, |threads|)|)
  }

  /** The reported number is the number of common keys, whatever the keys are, if and only if the
      parities alternate. */
  lemma RightIffAlternates(init: seq<bool>)
    requires |init| >= 2
    ensures RightForAll(init) <==> Alternates(init)
  {
    if Alternates(init) {
      forall threads | Inits(threads) == init && AllIncreasing(threads) ensures IsRight(threads) {
        assert |threads| == |init|;
        BuffersTakeTurns(threads, |threads|);
      }
    } else {
      var threads := WrongOnce(init);
      assert !IsRight(threads);
    }
  }

  lemma WrongOnce(init: seq<bool>) returns (threads: seq<Thread>)
    requires |init| >= 2 && !Alternates(init)
    ensures Inits(threads) == init && AllIncreasing(threads) && !IsRight(threads)
  {
    var i := FirstWrong(init);
    if p :| 2 <= p < i && init[p] && forall k :: p < k < i ==> !init[k] {
      threads := OneKey(init, p);
      WrongTurnOverflows(init, p, i);
      assert Inits(threads) == init;
    } else {
      threads := TwoKeys(init);
      NoneBefore(init, i);
      WrongStart(init, i);
    }
  }

  lemma WrongStart(init: seq<bool>, i: nat)
    requires 2 <= i < |init| && !InTurn(init, i) && forall k :: 2 <= k < i ==> !init[k]
    ensures var threads := TwoKeys(init); Inits(threads) == init && AllIncreasing(threads) && !IsRight(threads)
  {
    var threads := TwoKeys(init);
    assert Inits(threads) == init;
    NoneBetween(threads, 2, i);
    WrongStartLoses(init, i, |init|);
    TwoKeysCommon(init, |init|);
  }

  lemma FirstWrong(init: seq<bool>) returns (i: nat)
    requires |init| >= 2 && !Alternates(init)
    ensures 2 <= i < |init| && !InTurn(init, i) && forall k :: 2 <= k < i ==> InTurn(init, k)
  {
    i := 2;
    while i < |init| && InTurn(init, i)
      invariant 2 <= i <= |init| && forall k :: 2 <= k < i ==> InTurn(init, k)
    {
      i := i + 1;
    }
  }

  lemma NoneBefore(init: seq<bool>, i: nat)
    requires 2 <= i <= |init|
    requires !exists p :: 2 <= p < i && init[p] && forall k :: p < k < i ==> !init[k]
    ensures forall k :: 2 <= k < i ==> !init[k]
  {
    var n := i;
    while n > 2
      invariant 2 <= n <= i && forall k :: n <= k < i ==> !init[k]
    {
      n := n - 1;
      assert !init[n];
    }
  }
}
