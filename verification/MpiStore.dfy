/** The two shared lists through which ranks match their sends and receives. Every method is one
    section under the lock. */
module MpiStore {

  datatype Kind = PutSend | PutRecv | GetSend | GetRecv | NotFound

  datatype Sender = AnySource | From(rank: nat)

  datatype Tag = AnyTag | Tag(id: nat)

  /** An entry or a query, with what the trace needs to know about the call. */
  datatype MpiCall = MpiCall(kind: Kind, sender: Sender, receiver: nat, tag: Tag, comm: nat, inst: nat, dif: nat)

  datatype Store = Store(sends: seq<MpiCall>, recvs: seq<MpiCall>)

  /** Senders and tags also match when one of them is a wildcard. */
  predicate Matches(a: MpiCall, b: MpiCall) {
    && (a.sender == b.sender || a.sender.AnySource? || b.sender.AnySource?)
    && a.receiver == b.receiver
    && (a.tag == b.tag || a.tag.AnyTag? || b.tag.AnyTag?)
    && a.comm == b.comm
  }

  /** A message from `rank` with the tag `id` fits the record. */
  predicate Admits(m: MpiCall, rank: nat, id: nat) {
    m.sender in {AnySource, From(rank)} && m.tag in {AnyTag, Tag(id)}
  }

  /** Two records match exactly if one and the same message fits both. */
  lemma MatchesIff(a: MpiCall, b: MpiCall)
    ensures Matches(a, b) <==>
      a.receiver == b.receiver && a.comm == b.comm && exists rank: nat, id: nat :: Admits(a, rank, id) && Admits(b, rank, id)
  {
    if Matches(a, b) {
      var rank := if a.sender.From? then a.sender.rank else if b.sender.From? then b.sender.rank else 0;
      var id := if a.tag.Tag? then a.tag.id else if b.tag.Tag? then b.tag.id else 0;
      assert Admits(a, rank, id) && Admits(b, rank, id);
    }
  }

  /** The first entry that matches, or the end of the list. */
  function FirstMatch(list: seq<MpiCall>, query: MpiCall): (k: nat)
    ensures k <= |list|
    ensures forall j :: 0 <= j < k ==> !Matches(list[j], query)
    ensures k < |list| ==> Matches(list[k], query)
  {
    if list == [] || Matches(list[0], query) then 0 else 1 + FirstMatch(list[1..], query)
  }

  function Remove(list: seq<MpiCall>, k: nat): seq<MpiCall>
    requires k < |list|
  {
    list[..k] + list[k + 1..]
  }

  function Put(st: Store, msg: MpiCall): Store {
    if msg.kind.PutSend? then st.(sends := st.sends + [msg]) else st.(recvs := st.recvs + [msg])
  }

  /** The list a query looks through. */
  function Queried(st: Store, query: MpiCall): seq<MpiCall> {
    if query.kind.GetSend? then st.sends else st.recvs
  }

  function Without(st: Store, query: MpiCall): Store {
    var list := Queried(st, query);
    var k := FirstMatch(list, query);
    if k == |list| then st
    else if query.kind.GetSend? then st.(sends := Remove(list, k)) else st.(recvs := Remove(list, k))
  }

  function Answer(st: Store, query: MpiCall): MpiCall {
    var list := Queried(st, query);
    var k := FirstMatch(list, query);
    if k == |list| then query.(kind := NotFound)
    else
      query.(inst := list[k].inst, dif := list[k].dif,
             sender := if query.sender.AnySource? then list[k].sender else query.sender)
  }

  class Database {
    var sends: seq<MpiCall>
    var recvs: seq<MpiCall>

    ghost function Contents(): Store
      reads this
    {
      Store(sends, recvs)
    }

    constructor ()
      ensures Contents() == Store([], [])
    {
      sends, recvs := [], [];
    }

    method SendMsgToDb(msg: MpiCall)
      modifies this
      ensures Contents() == Put(old(Contents()), msg)
    {
      if msg.kind == PutSend {
        sends := sends + [msg];
      } else {
        recvs := recvs + [msg];
      }
    }

    /** Whether an entry matches a query; a query from any source learns the source. */
    static method ItemsAreEqual(a: MpiCall, b: MpiCall) returns (equal: bool, b': MpiCall)
      ensures equal <==> Matches(a, b)
      ensures b' == if equal && b.sender.AnySource? then b.(sender := a.sender) else b
    {
      b' := b;
      if a.sender != b.sender && b.sender != AnySource && a.sender != AnySource { return false, b'; }
      if a.receiver != b.receiver { return false, b'; }
      if a.tag != b.tag && a.tag != AnyTag && b.tag != AnyTag { return false, b'; }
      if a.comm != b.comm { return false, b'; }
      if b.sender == AnySource { b' := b.(sender := a.sender); }
      equal := true;
    }

    /** Take the first matching entry out of the list, or report that there is none. */
    method RecvMsgFromDb(query: MpiCall) returns (query': MpiCall)
      modifies this
      ensures Contents() == Without(old(Contents()), query) && query' == Answer(old(Contents()), query)
    {
      var list := if query.kind == GetSend then sends else recvs;
      query' := query;
      var i := 0;
      while i < |list|
        invariant 0 <= i <= |list| && FirstMatch(list, query) == i + FirstMatch(list[i..], query)
        invariant Contents() == old(Contents()) && query' == query
      {
        var equal, q := ItemsAreEqual(list[i], query);
        assert list[i..][0] == list[i] && list[i..][1..] == list[i + 1..];
        if equal {
          query' := q.(inst := list[i].inst, dif := list[i].dif);
          if query.kind == GetSend {
            sends := list[..i] + list[i + 1..];
          } else {
            recvs := list[..i] + list[i + 1..];
          }
          return;
        }
        i := i + 1;
      }
      query' := query'.(kind := NotFound);
    }

    /** One message for every other rank of the communicator. */
    method SendMsgToAllComm(update: MpiCall, size: nat) returns (update': MpiCall)
      requires update.sender.From?
      modifies this
      ensures Contents() == PutAll(old(Contents()), ToOthers(update, size))
      ensures update' == AfterLoop(update)
    {
      update' := update;
      var i: nat := 0;
      while i < size
        invariant i <= size && Contents() == PutAll(old(Contents()), ToOthers(update, i))
        invariant update'.kind == update.kind && update'.sender.From?
        invariant update' == if update.kind.PutSend? then update.(receiver := update'.receiver)
                             else if update.kind.PutRecv? then update.(sender := update'.sender)
                             else update
      {
        PutAllSnoc(old(Contents()), ToOthers(update, i), To(update, i));
        assert ToOthers(update, i) + [] == ToOthers(update, i);
        if update'.kind == PutSend && i != update'.sender.rank {
          update' := update'.(receiver := i);
          SendMsgToDb(update');
        } else if update'.kind == PutRecv && i != update'.receiver {
          update' := update'.(sender := From(i));
          SendMsgToDb(update');
        }
        i := i + 1;
      }
      if update'.kind == PutSend {
        update' := update'.(receiver := update'.sender.rank);
      } else if update'.kind == PutRecv {
        update' := update'.(sender := From(update'.receiver));
      }
    }
  }

  function PutAll(st: Store, msgs: seq<MpiCall>): Store {
    if msgs == [] then st else Put(PutAll(st, msgs[..|msgs| - 1]), msgs[|msgs| - 1])
  }

  lemma PutAllSnoc(st: Store, msgs: seq<MpiCall>, msg: MpiCall)
    ensures PutAll(st, msgs + [msg]) == Put(PutAll(st, msgs), msg)
  {
    assert (msgs + [msg])[..|msgs|] == msgs;
  }

  /** The message of a collective call that involves rank `i`. */
  function To(update: MpiCall, i: nat): MpiCall {
    if update.kind.PutSend? then update.(receiver := i) else update.(sender := From(i))
  }

  /** The record behind the loop over a communicator: it names the calling rank on both sides. */
  function AfterLoop(update: MpiCall): MpiCall
    requires update.sender.From?
  {
    if update.kind.PutSend? then update.(receiver := update.sender.rank)
    else if update.kind.PutRecv? then update.(sender := From(update.receiver))
    else update
  }

  function ToOthers(update: MpiCall, n: nat): seq<MpiCall>
    requires update.sender.From?
  {
    if n == 0 then []
    else
      var i := n - 1;
      var takes := if update.kind.PutSend? then i != update.sender.rank else update.kind.PutRecv? && i != update.receiver;
      ToOthers(update, i) + (if takes then [To(update, i)] else [])
  }
}
