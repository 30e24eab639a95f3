/** Statistics written on the master: other processes relay every call of the writer as messages,
    and the master turns them into calls again. */
module JsonRelay {
  import opened Basics

  /** The calls of the JSON writer. Strings are without their terminator. */
  datatype Event =
    | StartArray
    | EndArray
    | StartObject
    | EndObject
    | Uint64(ull: nat)
    | String(chars: string)
    | Double(datum: real)

  /** One message, by the type it is sent as. */
  datatype Message = Int(int_: int) | Ull(ull: nat) | Chars(chars: string) | Real(real_: real)

  const END_THREAD := 0
  const START_ARRAY := 1
  const END_ARRAY := 2
  const START_OBJECT := 3
  const END_OBJECT := 4
  const ULL := 5
  const STRING := 6
  const DOUBLE := 7
  const MAX_STRING_LENGTH: nat := 128
  const NUL: char := '\0'

  /** Strings fit into the buffer of the receiver. */
  predicate Fits(e: Event) {
    e.String? ==> |e.chars| + 1 <= MAX_STRING_LENGTH && NUL !in e.chars
  }

  /** What a process that is not the master sends for one call. */
  function Encode(e: Event): seq<Message> {
    match e
    case StartArray => [Int(START_ARRAY)]
    case EndArray => [Int(END_ARRAY)]
    case StartObject => [Int(START_OBJECT)]
    case EndObject => [Int(END_OBJECT)]
    case Uint64(v) => [Int(ULL), Ull(v)]
    case String(s) => [Int(STRING), Int(|s| + 1), Chars(s + [NUL])]
    case Double(d) => [Int(DOUBLE), Real(d)]
  }

  function EncodeAll(events: seq<Event>): seq<Message> {
    if events == [] then [] else Encode(events[0]) + EncodeAll(events[1..])
  }

  /** The events of the threads of a process; threads that were never initialised have none. */
  datatype Thread = Idle | Initialised(events: seq<Event>)

  function EventsOf(t: Thread): seq<Event> {
    if t.Initialised? then t.events else []
  }

  /** What a process writes when it writes locally. */
  function Local(threads: seq<Thread>): seq<Event> {
    if threads == [] then [] else EventsOf(threads[0]) + Local(threads[1..])
  }

  /** What it sends instead: the number of threads, then every thread with a mark behind it. */
  function SendThreads(threads: seq<Thread>): seq<Message> {
    if threads == [] then []
    else SendThread(threads[0]) + SendThreads(threads[1..])
  }

  function SendThread(t: Thread): seq<Message> {
    EncodeAll(EventsOf(t)) + [Int(END_THREAD)]
  }

  function Send(threads: seq<Thread>): seq<Message> {
    [Ull(|threads|)] + SendThreads(threads)
  }

  ghost predicate AllFit(events: seq<Event>) {
    forall i :: 0 <= i < |events| ==> Fits(events[i])
  }

  ghost predicate ProcessFits(threads: seq<Thread>) {
    forall i :: 0 <= i < |threads| ==> AllFit(EventsOf(threads[i]))
  }

  /** All processes in the order of their ranks. */
  function LocalAll(processes: seq<seq<Thread>>): seq<Event> {
    if processes == [] then [] else LocalAll(processes[..|processes| - 1]) + Local(processes[|processes| - 1])
  }

  /** The characters up to the terminator. */
  function CString(buffer: string): string {
    if buffer == [] || buffer[0] == NUL then [] else [buffer[0]] + CString(buffer[1..])
  }

  lemma {:induction false} CStringOfTerminated(s: string, rest: string)
    requires NUL !in s
    ensures CString(s + [NUL] + rest) == s
    decreases |s|
  {
    if s == [] {
      assert s + [NUL] + rest == [NUL] + rest;
    } else {
      CStringOfTerminated(s[1..], rest);
      assert (s + [NUL] + rest)[1..] == s[1..] + [NUL] + rest;
    }
  }

  /** The command an event is announced by. */
  function CommandOf(e: Event): int {
    match e
    case StartArray => START_ARRAY
    case EndArray => END_ARRAY
    case StartObject => START_OBJECT
    case EndObject => END_OBJECT
    case Uint64(_) => ULL
    case String(_) => STRING
    case Double(_) => DOUBLE
  }

  /** The messages behind the command. */
  function DataOf(e: Event): seq<Message> {
    match e
    case Uint64(v) => [Ull(v)]
    case String(s) => [Int(|s| + 1), Chars(s + [NUL])]
    case Double(d) => [Real(d)]
    case _ => []
  }

  predicate IsKnown(command: int) {
    START_ARRAY <= command <= DOUBLE
  }

  lemma EncodeParts(e: Event)
    ensures Encode(e) == [Int(CommandOf(e))] + DataOf(e) && IsKnown(CommandOf(e))
  {
  }

  /** A process that is not the master. */
  class Slave {
    /** What has been sent to the master. */
    var sent: seq<Message>

    constructor ()
      ensures sent == []
    {
      sent := [];
    }

    method Ssend(m: Message)
      modifies this
      ensures sent == old(sent) + [m]
    {
      sent := sent + [m];
    }

    method Emit(e: Event)
      modifies this
      ensures sent == old(sent) + Encode(e)
    {
      match e
      case StartArray => Ssend(Int(START_ARRAY));
      case EndArray => Ssend(Int(END_ARRAY));
      case StartObject => Ssend(Int(START_OBJECT));
      case EndObject => Ssend(Int(END_OBJECT));
      case Uint64(v) =>
        Ssend(Int(ULL));
        Ssend(Ull(v));
      case String(s) =>
        Ssend(Int(STRING));
        Ssend(Int(|s| + 1));
        Ssend(Chars(s + [NUL]));
      case Double(d) =>
        Ssend(Int(DOUBLE));
        Ssend(Real(d));
    }

    method EmitAll(events: seq<Event>)
      modifies this
      ensures sent == old(sent) + EncodeAll(events)
    {
      var i := 0;
      assert events[0..] == events;
      while i < |events|
        invariant 0 <= i <= |events| && sent + EncodeAll(events[i..]) == old(sent) + EncodeAll(events)
      {
        assert events[i..][1..] == events[i + 1..];
        Regroup(sent, Encode(events[i]), EncodeAll(events[i + 1..]));
        Emit(events[i]);
        i := i + 1;
      }
    }

    method DumpThread(t: Thread)
      modifies this
      ensures sent == old(sent) + SendThread(t)
    {
      if t.Initialised? {
        EmitAll(t.events);
      } else {
        assert EncodeAll(EventsOf(t)) == [];
      }
      Ssend(Int(END_THREAD));
    }

    method Dump(threads: seq<Thread>)
      modifies this
      ensures sent == old(sent) + Send(threads)
    {
      Ssend(Ull(|threads|));
      var i := 0;
      assert threads[0..] == threads;
      while i < |threads|
        invariant 0 <= i <= |threads| && sent + SendThreads(threads[i..]) == old(sent) + Send(threads)
      {
        assert threads[i..][1..] == threads[i + 1..];
        Regroup(sent, SendThread(threads[i]), SendThreads(threads[i + 1..]));
        DumpThread(threads[i]);
        i := i + 1;
      }
    }
  }

  class Master {
    /** The messages from each process that have not been received. */
    var inbox: seq<seq<Message>>
    /** The calls of the JSON writer so far. */
    var written: seq<Event>

    constructor (inbox: seq<seq<Message>>)
      ensures this.inbox == inbox && written == []
    {
      this.inbox, written := inbox, [];
    }

    /** `rest` comes behind `m`. */
    ghost predicate Next(source: nat, m: Message, rest: seq<Message>)
      reads this
    {
      source < |inbox| && inbox[source] == [m] + rest
    }

    method Pop(source: nat, ghost m: Message, ghost rest: seq<Message>) returns (m': Message)
      requires Next(source, m, rest)
      modifies this`inbox
      ensures m' == m && inbox == old(inbox)[source := rest]
    {
      m' := inbox[source][0];
      inbox := inbox[source := inbox[source][1..]];
    }

    /** A receive is for one type of message, and that is the type that comes. */
    method RecvInt(source: nat, ghost m: Message, ghost rest: seq<Message>) returns (v: int)
      requires Next(source, m, rest) && m.Int?
      modifies this`inbox
      ensures v == m.int_ && inbox == old(inbox)[source := rest]
    {
      var r := Pop(source, m, rest);
      v := r.int_;
    }

    method RecvUll(source: nat, ghost m: Message, ghost rest: seq<Message>) returns (v: nat)
      requires Next(source, m, rest) && m.Ull?
      modifies this`inbox
      ensures v == m.ull && inbox == old(inbox)[source := rest]
    {
      var r := Pop(source, m, rest);
      v := r.ull;
    }

    /** Room for `length` characters is needed. */
    method RecvChars(source: nat, length: int, ghost m: Message, ghost rest: seq<Message>) returns (v: string)
      requires Next(source, m, rest) && m.Chars? && |m.chars| == length <= MAX_STRING_LENGTH
      modifies this`inbox
      ensures v == m.chars && inbox == old(inbox)[source := rest]
    {
      var r := Pop(source, m, rest);
      v := r.chars;
    }

    method RecvReal(source: nat, ghost m: Message, ghost rest: seq<Message>) returns (v: real)
      requires Next(source, m, rest) && m.Real?
      modifies this`inbox
      ensures v == m.real_ && inbox == old(inbox)[source := rest]
    {
      var r := Pop(source, m, rest);
      v := r.real_;
    }

    method RecvString(source: nat, ghost s: string, ghost rest: seq<Message>) returns (v: string)
      requires source < |inbox| && inbox[source] == [Int(|s| + 1), Chars(s + [NUL])] + rest && Fits(String(s))
      modifies this`inbox
      ensures v == s && inbox == old(inbox)[source := rest]
    {
      ghost var m := Chars(s + [NUL]);
      assert inbox[source] == [Int(|s| + 1)] + ([m] + rest);
      var length := RecvInt(source, Int(|s| + 1), [m] + rest);
      var buffer := RecvChars(source, length, m, rest);
      CStringOfTerminated(s, []);
      assert s + [NUL] + [] == buffer;
      v := CString(buffer);
    }

    /** Carry out one command with the data behind it; an unknown command is only reported. */
    method Handle(source: nat, command: int, ghost e: Event, ghost rest: seq<Message>)
      requires source < |inbox| && command != END_THREAD
      requires if IsKnown(command) then command == CommandOf(e) && Fits(e) && inbox[source] == DataOf(e) + rest
               else inbox[source] == rest
      modifies this
      ensures written == old(written) + (if IsKnown(command) then [e] else []) && inbox == old(inbox)[source := rest]
    {
      assert inbox[source] == rest ==> inbox == inbox[source := rest];
      if command == START_ARRAY {
        written := written + [StartArray];
      } else if command == END_ARRAY {
        written := written + [EndArray];
      } else if command == START_OBJECT {
        written := written + [StartObject];
      } else if command == END_OBJECT {
        written := written + [EndObject];
      } else if command == ULL {
        var v := RecvUll(source, Ull(e.ull), rest);
        written := written + [Uint64(v)];
      } else if command == STRING {
        var s := RecvString(source, e.chars, rest);
        written := written + [String(s)];
      } else if command == DOUBLE {
        var d := RecvReal(source, Real(e.datum), rest);
        written := written + [Double(d)];
      }
    }

    /** Inside a thread: `command` announces the first of the events `left`, and what is written will
        be `goal` with them. */
    ghost predicate Inside(source: nat, command: int, left: seq<Event>, rest: seq<Message>, goal: seq<Event>,
                           boxes: seq<seq<Message>>)
      reads this
    {
      && source < |boxes| && inbox == boxes[source := Behind(left, rest)] && command == Ahead(left).int_
      && written + left == goal && AllFit(left)
    }

    method HandleNext(source: nat, command: int, ghost left: seq<Event>, ghost rest: seq<Message>, ghost goal: seq<Event>,
                      ghost boxes: seq<seq<Message>>)
      returns (command': int)
      requires Inside(source, command, left, rest, goal, boxes) && command != END_THREAD
      modifies this
      ensures left != [] && Inside(source, command', left[1..], rest, goal, boxes)
    {
      ghost var e, left' := left[0], left[1..];
      BehindStep(left, rest);
      Regroup(written, [e], left');
      Handle(source, command, e, [Ahead(left')] + Behind(left', rest));
      command' := RecvInt(source, Ahead(left'), Behind(left', rest));
    }

    /** One thread: commands until the mark. */
    method DumpThread(source: nat, ghost events: seq<Event>, ghost rest: seq<Message>)
      requires source < |inbox| && inbox[source] == EncodeAll(events) + [Int(END_THREAD)] + rest && AllFit(events)
      modifies this
      ensures written == old(written) + events && inbox == old(inbox)[source := rest]
    {
      ghost var left := events;
      Announced(events, rest);
      var command := RecvInt(source, Ahead(events), Behind(events, rest));
      while command != END_THREAD
        invariant Inside(source, command, left, rest, old(written) + events, old(inbox))
        decreases |left|
      {
        command := HandleNext(source, command, left, rest, old(written) + events, old(inbox));
        left := left[1..];
      }
      assert written + [] == written;
    }

    method DumpNext(source: nat, ghost threads: seq<Thread>, ghost i: nat, ghost rest: seq<Message>)
      requires i < |threads| && ProcessFits(threads) && source < |inbox| && inbox[source] == SendThreads(threads[i..]) + rest
      modifies this
      ensures written == old(written) + EventsOf(threads[i])
      ensures inbox == old(inbox)[source := SendThreads(threads[i + 1..]) + rest]
    {
      SendStep(threads, i, rest);
      DumpThread(source, EventsOf(threads[i]), SendThreads(threads[i + 1..]) + rest);
    }

    /** All threads of a process. */
    method DumpFrom(source: nat, ghost threads: seq<Thread>, ghost rest: seq<Message>)
      requires source < |inbox| && inbox[source] == Send(threads) + rest && ProcessFits(threads)
      modifies this
      ensures written == old(written) + Local(threads) && inbox == old(inbox)[source := rest]
    {
      assert inbox[source] == [Ull(|threads|)] + (SendThreads(threads) + rest);
      var n := RecvUll(source, Ull(|threads|), SendThreads(threads) + rest);
      var i := 0;
      assert threads[0..] == threads && Local(threads[..0]) == [];
      while i < n
        invariant 0 <= i <= n == |threads|
        invariant written == old(written) + Local(threads[..i])
        invariant inbox == old(inbox)[source := SendThreads(threads[i..]) + rest]
      {
        ghost var before := Local(threads[..i]);
        DumpNext(source, threads, i, rest);
        LocalStep(threads, i);
        Regroup(old(written), before, EventsOf(threads[i]));
        i := i + 1;
      }
      assert threads[..i] == threads;
      assert SendThreads(threads[i..]) + rest == rest;
    }

    method Dump(p: nat, own: nat, mine: seq<Thread>, ghost threads: seq<Thread>)
      requires p < |inbox| && if p == own then threads == mine else inbox[p] == Send(threads) && ProcessFits(threads)
      modifies this
      ensures written == old(written) + Local(threads)
      ensures inbox == if p == own then old(inbox) else old(inbox)[p := []]
    {
      if p == own {
        written := written + Local(mine);
      } else {
        assert inbox[p] == Send(threads) + [];
        DumpFrom(p, threads, []);
      }
    }

    /** The master writes its own statistics directly and collects those of the others, in the order
        of their ranks. */
    method DumpAll(own: nat, mine: seq<Thread>, ghost processes: seq<seq<Thread>>)
      requires |processes| == |inbox| && own < |processes| && processes[own] == mine
      requires forall p :: 0 <= p < |processes| && p != own ==> inbox[p] == Send(processes[p]) && ProcessFits(processes[p])
      modifies this
      ensures written == old(written) + LocalAll(processes)
      ensures |inbox| == |processes| && forall p :: 0 <= p < |processes| && p != own ==> inbox[p] == []
    {
      var n := |inbox|;
      var p := 0;
      assert processes[..0] == [];
      while p < n
        invariant 0 <= p <= n == |processes| == |inbox|
        invariant written == old(written) + LocalAll(processes[..p])
        invariant forall q :: 0 <= q < p && q != own ==> inbox[q] == []
        invariant forall q :: p <= q < n ==> inbox[q] == old(inbox)[q]
      {
        Dump(p, own, mine, processes[p]);
        LocalAllStep(processes, p, old(written));
        p := p + 1;
      }
      assert processes[..p] == processes;
    }
  }

  /** Every process but the master sends its statistics, and the master collects them: it writes what
      all of them would have written locally, in the order of their ranks. */
  method Collect(own: nat, processes: seq<seq<Thread>>) returns (written: seq<Event>)
    requires own < |processes| && forall p :: 0 <= p < |processes| && p != own ==> ProcessFits(processes[p])
    ensures written == LocalAll(processes)
  {
    var inbox: seq<seq<Message>> := [];
    var p := 0;
    while p < |processes|
      invariant 0 <= p <= |processes| && |inbox| == p
      invariant forall q :: 0 <= q < p && q != own ==> inbox[q] == Send(processes[q])
    {
      var slave := new Slave();
      if p != own { slave.Dump(processes[p]); }
      inbox := inbox + [slave.sent];
      p := p + 1;
    }
    var master := new Master(inbox);
    master.DumpAll(own, processes[own], processes);
    written := master.written;
  }

  /** The command that comes next, and what is behind it. */
  function Ahead(events: seq<Event>): Message {
    if events == [] then Int(END_THREAD) else Int(CommandOf(events[0]))
  }

  function Behind(events: seq<Event>, rest: seq<Message>): seq<Message> {
    if events == [] then rest else DataOf(events[0]) + (EncodeAll(events[1..]) + [Int(END_THREAD)] + rest)
  }

  lemma Parts(a: seq<Message>, b: seq<Message>, c: seq<Message>, d: seq<Message>, e: seq<Message>)
    ensures (a + b) + c + d + e == a + (b + (c + d + e))
  {
  }

  lemma Announced(events: seq<Event>, rest: seq<Message>)
    ensures EncodeAll(events) + [Int(END_THREAD)] + rest == [Ahead(events)] + Behind(events, rest)
  {
    if events != [] {
      EncodeParts(events[0]);
      Parts([Ahead(events)], DataOf(events[0]), EncodeAll(events[1..]), [Int(END_THREAD)], rest);
    }
  }

  lemma BehindStep(events: seq<Event>, rest: seq<Message>)
    requires events != []
    ensures Behind(events, rest) == DataOf(events[0]) + ([Ahead(events[1..])] + Behind(events[1..], rest))
  {
    Announced(events[1..], rest);
  }

  lemma SendStep(threads: seq<Thread>, i: nat, rest: seq<Message>)
    requires i < |threads|
    ensures SendThreads(threads[i..]) + rest == SendThread(threads[i]) + (SendThreads(threads[i + 1..]) + rest)
  {
    assert threads[i..][1..] == threads[i + 1..];
  }

  lemma {:induction false} LocalConcat(a: seq<Thread>, b: seq<Thread>)
    ensures Local(a + b) == Local(a) + Local(b)
    decreases |a|
  {
    if a == [] {
      assert a + b == b;
    } else {
      LocalConcat(a[1..], b);
      assert (a + b)[1..] == a[1..] + b;
      Regroup(EventsOf(a[0]), Local(a[1..]), Local(b));
    }
  }

  lemma LocalAllStep(processes: seq<seq<Thread>>, p: nat, before: seq<Event>)
    requires p < |processes|
    ensures before + LocalAll(processes[..p + 1]) == before + LocalAll(processes[..p]) + Local(processes[p])
  {
    assert processes[..p + 1][..p] == processes[..p];
    Regroup(before, LocalAll(processes[..p]), Local(processes[p]));
  }

  lemma LocalStep(threads: seq<Thread>, i: nat)
    requires i < |threads|
    ensures Local(threads[..i + 1]) == Local(threads[..i]) + EventsOf(threads[i])
  {
    LocalConcat(threads[..i], [threads[i]]);
    assert threads[..i + 1] == threads[..i] + [threads[i]];
    assert Local([threads[i]]) == EventsOf(threads[i]) + Local([threads[i]][1..]);
  }
}
