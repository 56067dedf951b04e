/** Interactive messages: the router cuts a reply that exceeds the client's window and stores
    it (gmt.cc:281-408), and the client pulls the rest by offset (gmc.cc:361-606). Router and client
    are functions here, and so are the steps of other parties on the same store. */
module ChunkedReply {
  import opened Common
  import opened BufferServer

  const GME_OK: nat := 0
  const GME_UNDEFINED: nat := 1
  const GME_MSGQ_TIMEOUT: nat := 11
  const GME_MSGQ_ERROR: nat := 12
  const GME_SVC_NOTFOUND: nat := 16
  const GME_MORE_DATA: nat := 99

  /** How a request of the router to the buffer server goes: answered, without a queue to send it to, or
      sent without an answer, whether it was carried out or not. */
  datatype Call = Answered | NoQueue | Broken(done: bool) | TimedOut(done: bool)

  /** The request was carried out. */
  predicate Arrives(call: Call) {
    match call
    case Answered => true
    case NoQueue => false
    case Broken(done) => done
    case TimedOut(done) => done
  }

  /** The code that the router notes for a request that was not answered. */
  function CodeOf(call: Call): nat
    requires call != Answered
  {
    match call
    case NoQueue => GME_SVC_NOTFOUND
    case Broken(_) => GME_MSGQ_ERROR
    case TimedOut(_) => GME_MSGQ_TIMEOUT
  }

  /** The fields of a request message that the exchange looks at. */
  datatype Query = Query(idMoreData: nat, indice: nat, tamMax: nat)

  /** The fields of the reply message. */
  datatype Answer = Answer(data: Bytes, codigo: nat, idMoreData: nat, tamTot: nat)

  /** What the server that was asked answered (`MsgQuery` on the first request). */
  datatype ServerAnswer = ServerAnswer(data: Bytes, codigo: nat)

  /** `SetData` does nothing when there is no data to set. */
  function SetData(a: Answer, data: Bytes): Answer {
    if data == [] then a else a.(data := data)
  }

  // ----- Router -----

  /** First request: the reply is sent as it came, or cut to the window and stored. */
  function RouteFirst(st: Store, q: Query, s: ServerAnswer, trans: nat, timer: Option<nat>, call: Call): (Store, Answer) {
    var a := Answer(s.data, s.codigo, 0, 0);
    if |s.data| > q.tamMax then
      var cut := SetData(a, s.data[..q.tamMax]);
      var (st', reply) := Process(st, New(s.data, trans, timer));
      if call == Answered && reply.NewId? then
        (st', cut.(idMoreData := reply.id, codigo := GME_MORE_DATA, tamTot := |s.data|))
      else
        (if Arrives(call) then st' else st,
         SetData(cut, []).(codigo := if call == Answered then GME_UNDEFINED else CodeOf(call), tamTot := 0))
    else (st, a)
  }

  /** Continuation: a piece of the stored reply. A piece shorter than the window is the last one; the
      router then also sends off a request to delete that buffer, without waiting until it is served. */
  function RouteNext(st: Store, q: Query, call: Call): (Answer, Option<nat>) {
    var a := Answer([], GME_OK, q.idMoreData, 0);
    var reply := Process(st, Get(q.idMoreData, q.indice, q.tamMax)).1;
    if call == Answered && reply.Chunk? then
      var b := SetData(a, reply.data).(tamTot := reply.totlen);
      if |reply.data| < q.tamMax then (b.(codigo := GME_OK), Some(q.idMoreData))
      else (b.(codigo := GME_MORE_DATA), None)
    else (a.(codigo := if call == Answered then GME_UNDEFINED else CodeOf(call)), None)
  }

  // ----- Client -----

  /** The client's fields: offset of the next piece, window, and the buffer id in the last
      reply received. */
  datatype ClientState = ClientState(indice: nat, transferLen: nat, idMoreData: nat)

  function Connected(transferLen: nat): ClientState {
    ClientState(0, transferLen, 0)
  }

  function QueryOf(c: ClientState): Query {
    Query(c.idMoreData, c.indice, c.transferLen)
  }

  /** Taking in one reply: the new state, the return code and the data handed to the caller. */
  function Accept(c: ClientState, a: Answer): (ClientState, nat, Bytes) {
    var c1 := c.(idMoreData := a.idMoreData);
    if a.codigo == GME_OK || a.codigo == GME_MORE_DATA then
      var more := |a.data| == c.transferLen && a.codigo == GME_MORE_DATA;
      if |a.data| > 0 then (c1.(indice := if more then c.indice + |a.data| else 0), a.codigo, a.data)
      else (c1, a.codigo, [])
    else (c1, a.codigo, [])
  }

  // ----- Everybody else -----

  /** A step of another party: another client's first or further request, or a request to the buffer
      service, among them the deletions that the router has sent off for other clients. */
  datatype Step =
    | First(q: Query, s: ServerAnswer, trans: nat, timer: Option<nat>, call: Call)
    | Next(q: Query, call: Call)
    | Direct(req: Request)

  function Take(st: Store, step: Step): Store {
    match step
    case First(q, s, trans, timer, call) => RouteFirst(st, q, s, trans, timer, call).0
    case Next(_, _) => st
    case Direct(req) => Process(st, req).0
  }

  function TakeAll(st: Store, steps: seq<Step>): Store
    decreases |steps|
  {
    if steps == [] then st else TakeAll(Take(st, steps[0]), steps[1..])
  }

  /** The step does not use our buffer id and does not end our transaction. */
  ghost predicate Foreign(step: Step, id: nat, trans: nat) {
    match step
    case First(_, _, _, _, _) => true
    case Next(_, _) => true
    case Direct(req) => Spares(req, id, trans)
  }

  ghost predicate AllForeign(steps: seq<Step>, id: nat, trans: nat) {
    forall i :: 0 <= i < |steps| ==> Foreign(steps[i], id, trans)
  }

  // ----- A client that keeps asking while the code is GME_MORE_DATA -----

  /** What the client has seen: its state, the store, everything received, the codes and the total lengths
      announced; and the buffer whose deletion is on its way. */
  datatype Progress = Progress(st: Store, client: ClientState, received: Bytes, codes: seq<nat>, totals: seq<nat>,
                               deletion: Option<nat>)

  /** One more request, after the steps of others. */
  function PullBy(p: Progress, others: seq<Step>, call: Call): Progress {
    var st := TakeAll(p.st, others);
    var (a, deletion) := RouteNext(st, QueryOf(p.client), call);
    var (client, codigo, data) := Accept(p.client, a);
    Progress(st, client, p.received + data, p.codes + [codigo], p.totals + [a.tamTot], deletion)
  }

  function Pull(p: Progress, others: seq<Step>): Progress {
    PullBy(p, others, Answered)
  }

  function PullAll(p: Progress, schedule: seq<seq<Step>>): Progress
    decreases |schedule|
  {
    if schedule == [] then p else PullAll(Pull(p, schedule[0]), schedule[1..])
  }

  /** One request of a client that also repeats unanswered ones: what the others do before it, and how the
      router's request to the buffer server goes. */
  datatype Attempt = Attempt(others: seq<Step>, call: Call)

  function PullEach(p: Progress, attempts: seq<Attempt>): Progress
    decreases |attempts|
  {
    if attempts == [] then p else PullEach(PullBy(p, attempts[0].others, attempts[0].call), attempts[1..])
  }

  function Begin(st: Store, window: nat, s: ServerAnswer, trans: nat, timer: Option<nat>, call: Call): Progress {
    var c := Connected(window);
    var (st', a) := RouteFirst(st, QueryOf(c), s, trans, timer, call);
    var (client, codigo, data) := Accept(c, a);
    Progress(st', client, data, [codigo], [a.tamTot], None)
  }

  ghost predicate Undisturbed(schedule: seq<seq<Step>>, id: nat, trans: nat) {
    forall i :: 0 <= i < |schedule| ==> AllForeign(schedule[i], id, trans)
  }

  /** Every reply with a piece of the data, which are those with GME_MORE_DATA or GME_OK, announced this
      length as the total, and every other reply 0. */
  ghost predicate Announced(codes: seq<nat>, totals: seq<nat>, length: nat) {
    && |totals| == |codes|
    && forall i :: 0 <= i < |codes| ==> totals[i] == if codes[i] == GME_MORE_DATA || codes[i] == GME_OK then length else 0
  }

  /** In the middle of a transfer: `offset` bytes have been delivered under GME_MORE_DATA. */
  ghost predicate MidTransfer(p: Progress, id: nat, trans: nat, data: Bytes, offset: nat, window: nat) {
    && Good(p.st) && Holds(p.st, id, trans, data)
    && 0 < window <= offset <= |data| && id > 0
    && p.client == ClientState(offset, window, id)
    && p.received == data[..offset] && Announced(p.codes, p.totals, |data|)
  }

  /** After the last request: everything received, and the deletion of the buffer on its way unless the
      window divides the length exactly. */
  ghost predicate Finished(p: Progress, id: nat, trans: nat, data: Bytes, exact: bool) {
    && Good(p.st) && p.received == data && Holds(p.st, id, trans, data)
    && p.deletion == (if exact then None else Some(id))
    && p.client.indice == (if exact then |data| else 0)
    && Announced(p.codes, p.totals, |data|)
  }

  /** The deletion, if one was sent off and got a queue and a process, is served. */
  function Served(st: Store, deletion: Option<nat>, sent: bool): Store {
    if deletion.Some? && sent then Process(st, Del(deletion.value)).0 else st
  }

  ghost predicate Leftover(st: Store, id: nat, trans: nat, data: Bytes, stays: bool) {
    if stays then Holds(st, id, trans, data) else ItemOf(st.list, id) == None
  }
}
