/** The chunked reply protocol as objects: the client, the two requests that the router handles, and the
    loop of an interactive client program (gmt.cc:281-408, gmc.cc:361-606). */
module ChunkedTransfer {
  import opened Common
  import opened BufferServer
  import opened BufferTheorems
  import opened ChunkedReply
  import opened ChunkedTheorems

  class Client {
    var indice: nat
    var transferLen: nat
    var idMoreData: nat

    ghost function State(): ClientState
      reads this
    {
      ClientState(indice, transferLen, idMoreData)
    }

    constructor (len: nat)
      ensures State() == Connected(len)
    {
      transferLen := len;
      indice := 0;
      idMoreData := 0;
    }

    /** The interactive fields that `Send` puts in the message. */
    method Send() returns (q: Query)
      ensures q == QueryOf(State())
    {
      var id := 0;
      if idMoreData != 0 {
        id := idMoreData;
      }
      q := Query(id, indice, transferLen);
    }

    method Recv(a: Answer) returns (codigo: nat, data: Bytes)
      modifies this
      ensures (State(), codigo, data) == Accept(old(State()), a)
    {
      idMoreData := a.idMoreData;
      data := [];
      if a.codigo == GME_OK || a.codigo == GME_MORE_DATA {
        if |a.data| > 0 {
          data := a.data;
          if |data| == transferLen && a.codigo == GME_MORE_DATA {
            indice := indice + |data|;
          } else {
            indice := 0;
          }
        }
      }
      codigo := a.codigo;
    }
  }

  /** The request to store a reply, as far as it arrives; None if it was not answered. */
  method StoreReply(server: Server, data: Bytes, trans: nat, timer: Option<nat>, call: Call) returns (reply: Option<Reply>)
    modifies server
    ensures var (st', r) := Process(old(server.State()), New(data, trans, timer));
            && server.State() == (if Arrives(call) then st' else old(server.State()))
            && reply == if call == Answered then Some(r) else None
  {
    reply := None;
    if Arrives(call) {
      var r := server.NewBuffer(data, trans, timer);
      if call == Answered {
        reply := Some(r);
      }
    }
  }

  /** The interactive branch of `MsgRouter`. */
  method HandleFirst(server: Server, q: Query, s: ServerAnswer, trans: nat, timer: Option<nat>, call: Call)
    returns (a: Answer)
    modifies server
    ensures (server.State(), a) == RouteFirst(old(server.State()), q, s, trans, timer, call)
  {
    a := Answer(s.data, s.codigo, 0, 0);
    if |a.data| > q.tamMax {
      a := a.(tamTot := |a.data|);
      a := SetData(a, s.data[..q.tamMax]);
      var reply := StoreReply(server, s.data, trans, timer, call);
      if reply.Some? && reply.value.NewId? {
        a := a.(idMoreData := reply.value.id);
        a := a.(codigo := GME_MORE_DATA);
      } else {
        a := SetData(a, []);
        a := a.(tamTot := 0);
        a := a.(codigo := if call == Answered then GME_UNDEFINED else CodeOf(call));
      }
    }
  }

  method HandleNext(server: Server, q: Query, call: Call) returns (a: Answer, deletion: Option<nat>)
    ensures (a, deletion) == RouteNext(server.State(), q, call)
  {
    a := Answer([], GME_OK, q.idMoreData, 0);
    deletion := None;
    var reply := server.GetBuffer(q.idMoreData, q.indice, q.tamMax);
    if call == Answered && reply.Chunk? {
      a := SetData(a, reply.data);
      a := a.(tamTot := reply.totlen);
      if |reply.data| < q.tamMax {
        deletion := Some(q.idMoreData);
        a := a.(codigo := GME_OK);
      } else {
        a := a.(codigo := GME_MORE_DATA);
      }
    } else {
      a := a.(codigo := if call == Answered then GME_UNDEFINED else CodeOf(call));
    }
  }

  method Others(server: Server, steps: seq<Step>)
    modifies server
    ensures server.State() == TakeAll(old(server.State()), steps)
  {
    for i := 0 to |steps|
      invariant TakeAll(server.State(), steps[i..]) == TakeAll(old(server.State()), steps)
    {
      assert steps[i..][0] == steps[i] && steps[i..][1..] == steps[i + 1..];
      match steps[i]
      case First(q, s, trans, timer, call) => var _ := HandleFirst(server, q, s, trans, timer, call);
      case Next(q, call) => var _, _ := HandleNext(server, q, call);
      case Direct(req) => var _ := server.Serve(req);
    }
  }

  method PullOnce(server: Server, client: Client, others: seq<Step>, ghost p: Progress)
    returns (codigo: nat, data: Bytes, total: nat, deletion: Option<nat>)
    requires p.st == server.State() && p.client == client.State()
    modifies server, client
    ensures Pull(p, others) ==
            Progress(server.State(), client.State(), p.received + data, p.codes + [codigo], p.totals + [total], deletion)
  {
    Others(server, others);
    var q := client.Send();
    var a;
    a, deletion := HandleNext(server, q, Answered);
    codigo, data := client.Recv(a);
    total := a.tamTot;
  }

  method BeginOnce(server: Server, window: nat, s: ServerAnswer, trans: nat, timer: Option<nat>)
    returns (client: Client, codigo: nat, data: Bytes, total: nat)
    modifies server
    ensures fresh(client)
    ensures Begin(old(server.State()), window, s, trans, timer, Answered) ==
            Progress(server.State(), client.State(), data, [codigo], [total], None)
  {
    client := new Client(window);
    var q := client.Send();
    var a := HandleFirst(server, q, s, trans, timer, Answered);
    codigo, data := client.Recv(a);
    total := a.tamTot;
  }

  /** After `k` further requests of the schedule. */
  ghost predicate Fetching(start: Progress, schedule: seq<seq<Step>>, k: nat, now: Progress, codigo: nat) {
    && k <= |schedule| && now == PullAll(start, schedule[..k])
    && |now.codes| == k + 1 && codigo == now.codes[k]
    && (codigo == GME_MORE_DATA <==> k < |schedule|)
  }

  /** All codes of the run but the last are GME_MORE_DATA. */
  ghost predicate EndsOnce(start: Progress, schedule: seq<seq<Step>>) {
    && |start.codes| == 1
    && exists last :: last != GME_MORE_DATA && PullAll(start, schedule).codes == Repeated(GME_MORE_DATA, |schedule|) + [last]
  }

  lemma FetchingStarts(start: Progress, schedule: seq<seq<Step>>)
    requires EndsOnce(start, schedule)
    ensures Fetching(start, schedule, 0, start, start.codes[0])
  {
    CodeAt(start, schedule, 0);
  }

  lemma {:induction false} FetchingGoesOn(start: Progress, schedule: seq<seq<Step>>, k: nat, now: Progress, next: Progress)
    requires EndsOnce(start, schedule) && k < |schedule|
    requires now == PullAll(start, schedule[..k]) && next == Pull(now, schedule[k])
    ensures next.codes != [] && Fetching(start, schedule, k + 1, next, next.codes[|next.codes| - 1])
  {
    OneMorePull(start, schedule, k);
    CodeAt(start, schedule, k + 1);
  }

  lemma {:induction false} FetchingEnds(start: Progress, schedule: seq<seq<Step>>, k: nat, now: Progress, codigo: nat)
    requires Fetching(start, schedule, k, now, codigo) && codigo != GME_MORE_DATA
    ensures now == PullAll(start, schedule) && now.codes != [] && codigo == now.codes[|now.codes| - 1]
  {
    assert schedule[..|schedule|] == schedule;
  }

  lemma TransferEndsOnce(st: Store, window: nat, s: ServerAnswer, trans: nat, timer: Option<nat>, schedule: seq<seq<Step>>)
    requires Transferable(st, window, s, trans, timer, schedule)
    ensures EndsOnce(Begin(st, window, s, trans, timer, Answered), schedule)
  {
    ReplyIsReassembled(st, window, s, trans, timer, schedule);
  }

  lemma AllAnnounced(codes: seq<nat>, totals: seq<nat>, length: nat, n: nat, exact: bool)
    requires Announced(codes, totals, length) && codes == Repeated(GME_MORE_DATA, n) + [LastCode(exact)]
    ensures totals == Repeated(length, n) + [if exact then 0 else length]
  {}

  /** What `Fetch` has done when its loop ends. */
  lemma {:induction false} TransferEnd(st: Store, window: nat, s: ServerAnswer, trans: nat, timer: Option<nat>, schedule: seq<seq<Step>>,
                    now: Progress, late: seq<Step>, sent: bool)
    requires Transferable(st, window, s, trans, timer, schedule)
    requires now == PullAll(Begin(st, window, s, trans, timer, Answered), schedule)
    requires AllForeign(late, Process(st, New(s.data, trans, timer)).1.id, trans)
    ensures now.received == s.data && now.codes != []
    ensures now.codes[|now.codes| - 1] == if |s.data| % window == 0 then GME_UNDEFINED else GME_OK
    ensures now.totals == Repeated(|s.data|, |s.data| / window) + [if |s.data| % window == 0 then 0 else |s.data|]
    ensures Leftover(Served(TakeAll(now.st, late), now.deletion, sent), Process(st, New(s.data, trans, timer)).1.id, trans,
                     s.data, |s.data| % window == 0 || !sent)
  {
    ReplyIsReassembled(st, window, s, trans, timer, schedule);
    AllAnnounced(now.codes, now.totals, |s.data|, |s.data| / window, |s.data| % window == 0);
    DeletionArrives(now, late, Process(st, New(s.data, trans, timer)).1.id, trans, s.data, |s.data| % window == 0, sent);
  }

  /** The loop of an interactive client program: receive while the code is GME_MORE_DATA. The
      schedule says what the others do before each further request; the loop ends after one
      request for each full window in the reply, with the whole reply received. `late` is what
      the others do before the deletion of the buffer is served, if it could be sent. */
  method Fetch(server: Server, window: nat, s: ServerAnswer, trans: nat, timer: Option<nat>,
               schedule: seq<seq<Step>>, late: seq<Step>, sent: bool)
    returns (received: Bytes, codigo: nat, totals: seq<nat>)
    requires Transferable(server.State(), window, s, trans, timer, schedule)
    requires AllForeign(late, Process(server.State(), New(s.data, trans, timer)).1.id, trans)
    modifies server
    ensures received == s.data
    ensures codigo == if |s.data| % window == 0 then GME_UNDEFINED else GME_OK
    ensures totals == Repeated(|s.data|, |s.data| / window) + [if |s.data| % window == 0 then 0 else |s.data|]
    ensures Leftover(server.State(), Process(old(server.State()), New(s.data, trans, timer)).1.id, trans, s.data,
                    |s.data| % window == 0 || !sent)
  {
    ghost var st := server.State();
    ghost var start := Begin(st, window, s, trans, timer, Answered);
    TransferEndsOnce(st, window, s, trans, timer, schedule);
    var client, total;
    client, codigo, received, total := BeginOnce(server, window, s, trans, timer);
    totals := [total];
    ghost var now := start;
    var deletion := None;
    var k := 0;
    FetchingStarts(start, schedule);
    while codigo == GME_MORE_DATA
      invariant now == Progress(server.State(), client.State(), received, now.codes, totals, deletion)
      invariant Fetching(start, schedule, k, now, codigo)
      decreases |schedule| - k
    {
      var data;
      codigo, data, total, deletion := PullOnce(server, client, schedule[k], now);
      received := received + data;
      totals := totals + [total];
      FetchingGoesOn(start, schedule, k, now, Pull(now, schedule[k]));
      now := Pull(now, schedule[k]);
      k := k + 1;
    }
    FetchingEnds(start, schedule, k, now, codigo);
    TransferEnd(st, window, s, trans, timer, schedule, now, late, sent);
    Others(server, late);
    if deletion.Some? && sent {
      var _ := server.DelBuffer(deletion.value);
    }
  }

  lemma {:induction false} PullAllAppend(p: Progress, schedule: seq<seq<Step>>, more: seq<seq<Step>>)
    ensures PullAll(p, schedule + more) == PullAll(PullAll(p, schedule), more)
    decreases |schedule|
  {
    if schedule == [] {
      assert schedule + more == more;
    } else {
      assert (schedule + more)[1..] == schedule[1..] + more;
      PullAllAppend(Pull(p, schedule[0]), schedule[1..], more);
    }
  }

  lemma {:induction false} OneMorePull(p: Progress, schedule: seq<seq<Step>>, k: nat)
    requires k < |schedule|
    ensures PullAll(p, schedule[..k + 1]) == Pull(PullAll(p, schedule[..k]), schedule[k])
  {
    assert schedule[..k + 1] == schedule[..k] + [schedule[k]];
    PullAllAppend(p, schedule[..k], [schedule[k]]);
    assert [schedule[k]][1..] == [];
  }

  lemma {:induction false} CodesGrow(p: Progress, schedule: seq<seq<Step>>)
    ensures p.codes <= PullAll(p, schedule).codes
    ensures |PullAll(p, schedule).codes| == |p.codes| + |schedule|
    decreases |schedule|
  {
    if schedule == [] {
    } else {
      CodesGrow(Pull(p, schedule[0]), schedule[1..]);
    }
  }

  lemma {:induction false} CodesOfPrefix(p: Progress, schedule: seq<seq<Step>>, k: nat)
    requires k <= |schedule|
    ensures |PullAll(p, schedule).codes| == |p.codes| + |schedule|
    ensures PullAll(p, schedule[..k]).codes == PullAll(p, schedule).codes[..|p.codes| + k]
  {
    assert schedule == schedule[..k] + schedule[k..];
    PullAllAppend(p, schedule[..k], schedule[k..]);
    CodesGrow(p, schedule[..k]);
    CodesGrow(PullAll(p, schedule[..k]), schedule[k..]);
  }

  /** In a run whose last code alone is not GME_MORE_DATA, that code tells the client when to stop. */
  lemma {:induction false} CodeAt(p: Progress, schedule: seq<seq<Step>>, k: nat)
    requires k <= |schedule| && |p.codes| == 1
    requires exists last :: last != GME_MORE_DATA && PullAll(p, schedule).codes == Repeated(GME_MORE_DATA, |schedule|) + [last]
    ensures var codes := PullAll(p, schedule[..k]).codes;
            |codes| == k + 1 && (codes[k] == GME_MORE_DATA <==> k < |schedule|)
  {
    CodesOfPrefix(p, schedule, k);
  }
}
