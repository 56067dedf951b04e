/** The timer server: the requests of `CGMTimer::Message`, the drain loop of `TimeOut`, and
    whole runs of the loop that alternates them (gm_timer.cc:82-102). */
module TimerServer {
  import opened Common
  import opened IdAllocator
  import opened Strings
  import opened Timers

  /** Requests; `SetTimer` has a delay in seconds or a time of day, the other one being 0. */
  datatype Request =
    | SetTimer(delay: nat, at: nat, servicio: string, modo: char, repeat: bool, trans: nat, msg: Bytes)
    | KillTimer(id: nat)
    | EndTrans(trans: nat)

  /** `Failed` is GME_UNDEFINED. */
  datatype Reply = Failed | Done | TimerId(id: nat)

  datatype State = State(list: seq<Timer>, lastId: nat)

  function NewTimer(req: Request, id: nat, t: int): Timer
    requires req.SetTimer?
  {
    Timer(id, if req.delay != 0 then t + req.delay else req.at, if req.delay != 0 && req.repeat then req.delay else 0,
          Cut(req.servicio, NAME_WIDTH), req.modo, req.trans, req.msg)
  }

  /** The timer belongs to the transaction. */
  function OfTrans(trans: nat): Timer -> bool {
    (x: Timer) => x.trans == trans
  }

  /** One request at time `t`. */
  function Handle(st: State, t: int, req: Request): (State, Reply) {
    match req
    case SetTimer(delay, at, _, _, _, _, _) =>
      if (delay != 0) == (at != 0) then (st, Failed)
      else
        var id := NextId(TimerIds(st.list), st.lastId);
        if id == 0 then (st.(lastId := 0), Failed)
        else (State(st.list + [NewTimer(req, id, t)], id), TimerId(id))
    case KillTimer(id) =>
      var i := IndexOfTimer(st.list, id);
      if id == 0 || i == |st.list| then (st, Failed)
      else (st.(list := st.list[..i] + st.list[i + 1..]), Done)
    case EndTrans(trans) =>
      var i := First(st.list, OfTrans(trans));
      if trans == 0 || i == |st.list| then (st, Failed)
      else (st.(list := st.list[..i] + st.list[i + 1..]), Done)
  }

  // ----- What every step keeps -----

  ghost predicate Good(st: State) {
    && DistinctTimers(st.list)
    && (forall x :: x in st.list ==> 1 <= x.id <= MAX_ID)
    && (st.list != [] ==> st.lastId <= MAX_ID)
  }

  lemma FreshTimerId(st: State)
    requires Good(st)
    ensures var id := NextId(TimerIds(st.list), st.lastId);
            id <= MAX_ID && forall x :: x in st.list ==> x.id != id
  {
    var ids := TimerIds(st.list);
    NextIdSpec(ids, st.lastId);
    assert forall i :: 0 <= i < |st.list| ==> ids[i] == st.list[i].id;
  }

  /** A good list with a new timer at its end, and one without one of its timers, are good. */
  lemma OneMoreIsGood(st: State, x: Timer)
    requires Good(st) && 1 <= x.id <= MAX_ID && forall y :: y in st.list ==> y.id != x.id
    ensures Good(State(st.list + [x], x.id))
  {}

  lemma RemovalKeepsGood(st: State, i: nat)
    requires Good(st)
    ensures i < |st.list| ==> Good(st.(list := st.list[..i] + st.list[i + 1..]))
  {}

  lemma SetKeepsGood(st: State, t: int, req: Request)
    requires Good(st) && req.SetTimer?
    ensures Good(Handle(st, t, req).0)
  {
    var id := NextId(TimerIds(st.list), st.lastId);
    FreshTimerId(st);
    if id != 0 {
      OneMoreIsGood(st, NewTimer(req, id, t));
    }
  }

  lemma HandleKeepsGood(st: State, t: int, req: Request)
    requires Good(st)
    ensures Good(Handle(st, t, req).0)
  {
    match req
    case SetTimer(_, _, _, _, _, _, _) => SetKeepsGood(st, t, req);
    case KillTimer(id) => RemovalKeepsGood(st, IndexOfTimer(st.list, id));
    case EndTrans(trans) => RemovalKeepsGood(st, First(st.list, OfTrans(trans)));
  }

  lemma {:induction false} DrainedDistinct(list: seq<Timer>, t: int)
    requires DistinctTimers(list)
    ensures DistinctTimers(Drained(list, t))
  {
    if list == [] {
    } else {
      DrainedDistinct(list[1..], t);
      var rest := Drained(list[1..], t);
      forall x | x in rest ensures x.id != list[0].id {
        DrainedIds(list[1..], t, x);
        var y :| y in list[1..] && y.id == x.id && After(y, t) == [x];
      }
      assert forall j :: 0 <= j < |rest| ==> rest[j] in rest;
    }
  }

  lemma {:induction false} DrainKeepsGood(st: State, t: int)
    requires Good(st)
    ensures Good(st.(list := Drained(st.list, t)))
  {
    DrainedDistinct(st.list, t);
    forall x | x in Drained(st.list, t) ensures 1 <= x.id <= MAX_ID {
      DrainedIds(st.list, t, x);
    }
    if st.list == [] {
      assert Drained(st.list, t) == [];
    }
  }

  // ----- How long the server may sleep -----

  /** The least time left among the timers. */
  function LeastRemaining(list: seq<Timer>, t: int): int
    requires list != []
  {
    if |list| == 1 then list[0].endT - t else Min(list[0].endT - t, LeastRemaining(list[1..], t))
  }

  /** `Rest`, in hundredths of a second; `maxWait` caps it when positive. */
  function RestOf(list: seq<Timer>, t: int, maxWait: int): int {
    var rest := if list == [] then -1 else if LeastRemaining(list, t) <= 0 then 0 else 100 * LeastRemaining(list, t);
    if maxWait > 0 && rest > maxWait then maxWait else rest
  }

  lemma {:induction false} LeastIsLeast(list: seq<Timer>, t: int)
    requires list != []
    ensures forall x :: x in list ==> LeastRemaining(list, t) <= x.endT - t
    ensures exists x :: x in list && LeastRemaining(list, t) == x.endT - t
  {
    if |list| == 1 {
      assert list[0] in list;
    } else {
      LeastIsLeast(list[1..], t);
      if LeastRemaining(list, t) == list[0].endT - t {
        assert list[0] in list;
      } else {
        var x :| x in list[1..] && LeastRemaining(list[1..], t) == x.endT - t;
        assert x in list;
      }
    }
  }

  /** After a drain the server waits for ever exactly when no timer is left; otherwise it waits a
      positive time that passes no deadline, and exactly up to the earliest one if not capped. */
  lemma {:induction false} RestAfterDrain(list: seq<Timer>, t: int, maxWait: int)
    ensures var left := Drained(list, t);
            var rest := RestOf(left, t, maxWait);
            && (rest == -1 <==> left == [])
            && (left != [] ==> rest > 0)
            && (forall x :: x in left ==> rest <= 100 * (x.endT - t))
            && (left != [] && maxWait <= 0 ==> exists x :: x in left && rest == 100 * (x.endT - t))
            && (left != [] && maxWait > 0 ==> rest <= maxWait)
            && (left != [] && rest != maxWait ==> exists x :: x in left && rest == 100 * (x.endT - t))
  {
    var left := Drained(list, t);
    NothingOverdueIsLeft(list, t);
    if left != [] {
      LeastIsLeast(left, t);
      var x :| x in left && LeastRemaining(left, t) == x.endT - t;
      var i :| 0 <= i < |left| && left[i] == x;
    }
  }

  // ----- Messages sent when timers fire -----

  datatype Emission = Posted(servicio: string, msg: Bytes) | Notified(servicio: string, msg: Bytes)

  function Emit(servicio: string, tipo: char, msg: Bytes): seq<Emission> {
    if tipo == GM_MSG_TYPE_MSG then [Posted(Cut(servicio, NAME_WIDTH), msg)]
    else if tipo == GM_MSG_TYPE_NOT then [Notified(Cut(servicio, NAME_WIDTH), msg)]
    else []
  }

  function EmitById(list: seq<Timer>, id: nat): seq<Emission> {
    var i := IndexOfTimer(list, id);
    if i == |list| then [] else Emit(list[i].servicio, list[i].tipo, list[i].msg)
  }

  /** What is sent when these ids fire, in this order. */
  function EmittedBy(list: seq<Timer>, ids: seq<nat>): seq<Emission> {
    if ids == [] then [] else EmitById(list, ids[0]) + EmittedBy(list, ids[1..])
  }

  lemma {:induction false} EmittedByAppend(list: seq<Timer>, ids: seq<nat>, id: nat)
    ensures EmittedBy(list, ids + [id]) == EmittedBy(list, ids) + EmitById(list, id)
  {
    if ids == [] {
      assert [id][1..] == [];
    } else {
      assert (ids + [id])[1..] == ids[1..] + [id];
      EmittedByAppend(list, ids[1..], id);
    }
  }

  /** Looked up in `before`, every timer of `now` still sends the same. */
  ghost predicate SameJobs(now: seq<Timer>, before: seq<Timer>) {
    forall x :: x in now ==> EmitById(before, x.id) == Emit(x.servicio, x.tipo, x.msg)
  }

  lemma TimerIndexUnique(list: seq<Timer>, x: Timer)
    requires DistinctTimers(list) && x in list
    ensures IndexOfTimer(list, x.id) < |list| && list[IndexOfTimer(list, x.id)] == x
  {
    var i :| 0 <= i < |list| && list[i] == x;
    assert IndexOfTimer(list, x.id) == i;
  }

  lemma AcknowledgedGood(st: State, i: nat)
    requires Good(st) && i < |st.list|
    ensures Good(st.(list := Acknowledged(st.list, i)))
  {
    var next := Acknowledged(st.list, i);
    forall x | x in next ensures 1 <= x.id <= MAX_ID {
      var y := AcknowledgedFrom(st.list, i, x);
    }
  }

  lemma AcknowledgedFrom(list: seq<Timer>, i: nat, x: Timer) returns (y: Timer)
    requires i < |list| && x in Acknowledged(list, i)
    ensures y in list && y == x.(endT := y.endT)
  {
    var next := Acknowledged(list, i);
    var j :| 0 <= j < |next| && next[j] == x;
    y := list[if list[i].restart > 0 || j < i then j else j + 1];
  }

  lemma AcknowledgedJobs(list: seq<Timer>, i: nat, before: seq<Timer>)
    requires i < |list| && SameJobs(list, before)
    ensures SameJobs(Acknowledged(list, i), before)
  {
    forall x | x in Acknowledged(list, i) ensures EmitById(before, x.id) == Emit(x.servicio, x.tipo, x.msg) {
      var y := AcknowledgedFrom(list, i, x);
    }
  }

  /** In the middle of a drain that started from `before`: what has fired and what is still to
      fire make up what the whole drain fires. */
  ghost predicate Draining(st: State, before: seq<Timer>, fired: seq<nat>, t: int) {
    && Good(st) && SameJobs(st.list, before)
    && Drained(st.list, t) == Drained(before, t)
    && fired + Fired(st.list, t) == Fired(before, t)
  }

  lemma {:induction false} DrainTurn(st: State, before: seq<Timer>, fired: seq<nat>, t: int)
    requires Draining(st, before, fired, t) && FirstOverdue(st.list, t) < |st.list|
    ensures var i := FirstOverdue(st.list, t);
            var x, next := st.list[i], Acknowledged(st.list, i);
            && x.id != 0 && IndexOfTimer(st.list, x.id) == i
            && Draining(st.(list := next), before, fired + [x.id], t)
            && |Fired(next, t)| < |Fired(st.list, t)|
            && EmittedBy(before, fired + [x.id]) == EmittedBy(before, fired) + Emit(x.servicio, x.tipo, x.msg)
  {
    var i := FirstOverdue(st.list, t);
    var x := st.list[i];
    assert x in st.list;
    TimerIndexUnique(st.list, x);
    AcknowledgedGood(st, i);
    AcknowledgedJobs(st.list, i, before);
    AcknowledgeStep(st.list, t);
    Associate(fired, [x.id], Fired(Acknowledged(st.list, i), t));
    EmittedByAppend(before, fired, x.id);
  }

  /** What `Check` returns. */
  function OverdueId(list: seq<Timer>, t: int): nat {
    if FirstOverdue(list, t) == |list| then 0 else list[FirstOverdue(list, t)].id
  }

  lemma FoundId(st: State, t: int)
    requires Good(st)
    ensures OverdueId(st.list, t) == 0 <==> FirstOverdue(st.list, t) == |st.list|
  {
    var i := FirstOverdue(st.list, t);
    assert i == |st.list| || st.list[i] in st.list;
  }

  /** At the head of the drain loop: `sentBefore` had been sent when it began. */
  ghost predicate AtLoop(st: State, sent: seq<Emission>, before: seq<Timer>, sentBefore: seq<Emission>, fired: seq<nat>, t: int) {
    Draining(st, before, fired, t) && sent == sentBefore + EmittedBy(before, fired)
  }

  lemma DrainStarts(st: State, sent: seq<Emission>, t: int)
    requires Good(st)
    ensures AtLoop(st, sent, st.list, sent, [], t)
  {
    assert [] + Fired(st.list, t) == Fired(st.list, t);
    assert sent + [] == sent;
  }

  lemma {:induction false} DrainStep(st: State, sent: seq<Emission>, before: seq<Timer>, sentBefore: seq<Emission>, fired: seq<nat>, t: int)
    requires AtLoop(st, sent, before, sentBefore, fired, t) && FirstOverdue(st.list, t) < |st.list|
    ensures var i := FirstOverdue(st.list, t);
            var x, next := st.list[i], Acknowledged(st.list, i);
            && x.id != 0 && IndexOfTimer(st.list, x.id) == i
            && AtLoop(st.(list := next), sent + Emit(x.servicio, x.tipo, x.msg), before, sentBefore, fired + [x.id], t)
            && |Fired(next, t)| < |Fired(st.list, t)|
  {
    DrainTurn(st, before, fired, t);
    var x := st.list[FirstOverdue(st.list, t)];
    Associate(sentBefore, EmittedBy(before, fired), Emit(x.servicio, x.tipo, x.msg));
  }

  lemma {:induction false} DrainEnds(st: State, sent: seq<Emission>, before: seq<Timer>, sentBefore: seq<Emission>, fired: seq<nat>, t: int)
    requires AtLoop(st, sent, before, sentBefore, fired, t) && FirstOverdue(st.list, t) == |st.list|
    ensures st.list == Drained(before, t) && sent == sentBefore + EmittedBy(before, Fired(before, t))
  {
    NothingDue(st.list, t);
    assert fired + [] == fired;
  }

  // ----- Whole runs of the server -----

  /** The server wakes at a time, with a request or because its wait has ended, and then drains. */
  datatype Wake = Wake(t: int, req: Option<Request>)

  function Handled(st: State, w: Wake): State {
    if w.req.Some? then Handle(st, w.t, w.req.value).0 else st
  }

  function Turn(st: State, w: Wake): State {
    Handled(st, w).(list := Drained(Handled(st, w).list, w.t))
  }

  function Run(st: State, wakes: seq<Wake>): State
    decreases |wakes|
  {
    if wakes == [] then st else Run(Turn(st, wakes[0]), wakes[1..])
  }

  lemma TurnKeepsGood(st: State, w: Wake)
    requires Good(st)
    ensures Good(Handled(st, w)) && Good(Turn(st, w))
  {
    if w.req.Some? {
      HandleKeepsGood(st, w.t, w.req.value);
    }
    DrainKeepsGood(Handled(st, w), w.t);
  }

  /** What is sent in one turn. */
  function SentInTurn(st: State, w: Wake): seq<Emission> {
    EmittedBy(Handled(st, w).list, Fired(Handled(st, w).list, w.t))
  }

  /** What is sent over a run. */
  function SentInRun(st: State, wakes: seq<Wake>): seq<Emission>
    decreases |wakes|
  {
    if wakes == [] then [] else SentInTurn(st, wakes[0]) + SentInRun(Turn(st, wakes[0]), wakes[1..])
  }

  /** At the head of the server loop: the turns of the first `i` wakes are done. */
  ghost predicate Serving(st: State, sent: seq<Emission>, start: State, sentBefore: seq<Emission>, wakes: seq<Wake>, i: nat) {
    i <= |wakes| && Good(st) && st == Run(start, wakes[..i]) && sent == sentBefore + SentInRun(start, wakes[..i])
  }

  lemma {:induction false} ServingStarts(start: State, sentBefore: seq<Emission>, wakes: seq<Wake>)
    requires Good(start)
    ensures Serving(start, sentBefore, start, sentBefore, wakes, 0)
  {
    assert sentBefore + [] == sentBefore;
  }

  lemma {:induction false} FirstTurn(st: State, w: Wake, wakes: seq<Wake>)
    ensures Run(st, [w] + wakes) == Run(Turn(st, w), wakes)
    ensures SentInRun(st, [w] + wakes) == SentInTurn(st, w) + SentInRun(Turn(st, w), wakes)
  {
    assert ([w] + wakes)[1..] == wakes;
  }

  lemma {:induction false} OneTurnMore(st: State, wakes: seq<Wake>, w: Wake)
    ensures Run(st, wakes + [w]) == Turn(Run(st, wakes), w)
    ensures SentInRun(st, wakes + [w]) == SentInRun(st, wakes) + SentInTurn(Run(st, wakes), w)
    decreases |wakes|
  {
    if wakes == [] {
      FirstTurn(st, w, []);
      assert [w] + [] == [w] && wakes + [w] == [w];
      assert Run(Turn(st, w), []) == Turn(st, w) && SentInRun(Turn(st, w), []) == [];
    } else {
      var first, rest := wakes[0], wakes[1..];
      var next := Turn(st, first);
      assert wakes == [first] + rest && wakes + [w] == [first] + (rest + [w]);
      FirstTurn(st, first, rest);
      FirstTurn(st, first, rest + [w]);
      OneTurnMore(next, rest, w);
      Associate(SentInTurn(st, first), SentInRun(next, rest), SentInTurn(Run(next, rest), w));
    }
  }

  lemma {:induction false} ServesOn(st: State, sent: seq<Emission>, start: State, sentBefore: seq<Emission>, wakes: seq<Wake>, i: nat)
    requires Serving(st, sent, start, sentBefore, wakes, i) && i < |wakes|
    ensures Serving(Turn(st, wakes[i]), sent + SentInTurn(st, wakes[i]), start, sentBefore, wakes, i + 1)
  {
    TurnKeepsGood(st, wakes[i]);
    assert wakes[..i + 1] == wakes[..i] + [wakes[i]];
    OneTurnMore(start, wakes[..i], wakes[i]);
    Associate(sentBefore, SentInRun(start, wakes[..i]), SentInTurn(st, wakes[i]));
  }

  lemma {:induction false} ServingEnds(st: State, sent: seq<Emission>, start: State, sentBefore: seq<Emission>, wakes: seq<Wake>)
    requires Serving(st, sent, start, sentBefore, wakes, |wakes|)
    ensures st == Run(start, wakes) && sent == sentBefore + SentInRun(start, wakes)
  {
    assert wakes[..|wakes|] == wakes;
  }

  // ----- The server object -----

  class Server {
    var list: seq<Timer>
    var lastId: nat
    var sent: seq<Emission>

    ghost function Now(): State
      reads this
    {
      State(list, lastId)
    }

    /** `m_last_id` is not initialised; the first search, on an empty table, sets it. */
    constructor ()
      ensures list == [] && sent == []
    {
      list := [];
      sent := [];
    }

    method Set(t: int, delay: nat, servicio: string, tipo: char, trans: nat, msg: Bytes, repeat: bool) returns (id: nat)
      requires delay != 0
      modifies this
      ensures sent == old(sent)
      ensures (Now(), if id == 0 then Failed else TimerId(id)) ==
              Handle(old(Now()), t, SetTimer(delay, 0, servicio, tipo, repeat, trans, msg))
    {
      lastId := GetNewId(TimerIds(list), lastId);
      id := lastId;
      if id == 0 {
        return;
      }
      var restart := 0;
      if repeat {
        restart := delay;
      }
      list := list + [Timer(id, t + delay, restart, Cut(servicio, NAME_WIDTH), tipo, trans, msg)];
    }

    method At(t: int, end: nat, servicio: string, tipo: char, trans: nat, msg: Bytes) returns (id: nat)
      requires end != 0
      modifies this
      ensures sent == old(sent)
      ensures forall repeat ::
                (Now(), if id == 0 then Failed else TimerId(id)) ==
                Handle(old(Now()), t, SetTimer(0, end, servicio, tipo, repeat, trans, msg))
    {
      lastId := GetNewId(TimerIds(list), lastId);
      id := lastId;
      if id == 0 {
        return;
      }
      list := list + [Timer(id, end, 0, Cut(servicio, NAME_WIDTH), tipo, trans, msg)];
    }

    method Find(id: nat) returns (i: nat)
      ensures i == IndexOfTimer(list, id)
    {
      i := 0;
      while i < |list|
        invariant i <= |list| && forall j :: 0 <= j < i ==> list[j].id != id
      {
        if list[i].id == id {
          break;
        }
        i := i + 1;
      }
    }

    method Ok(id: nat) returns (rc: int)
      modifies this`list
      ensures rc == if id == 0 || IndexOfTimer(old(list), id) == |old(list)| then -1 else 0
      ensures list == if rc == 0 then Acknowledged(old(list), IndexOfTimer(old(list), id)) else old(list)
    {
      if id == 0 {
        return -1;
      }
      var i := Find(id);
      if i == |list| {
        return -1;
      }
      if list[i].restart > 0 {
        list := list[i := list[i].(endT := list[i].endT + list[i].restart)];
      } else {
        list := list[..i] + list[i + 1..];
      }
      return 0;
    }

    method DelId(id: nat) returns (rc: int)
      modifies this`list
      ensures (Now(), if rc == 0 then Done else Failed) == Handle(old(Now()), 0, KillTimer(id))
    {
      if id == 0 {
        return -1;
      }
      var i := Find(id);
      if i == |list| {
        return -1;
      }
      list := list[..i] + list[i + 1..];
      return 0;
    }

    method DelTrans(trans: nat) returns (rc: int)
      modifies this`list
      ensures (Now(), if rc == 0 then Done else Failed) == Handle(old(Now()), 0, EndTrans(trans))
    {
      if trans == 0 {
        return -1;
      }
      var i := 0;
      while i < |list|
        invariant i <= |list| && forall j :: 0 <= j < i ==> list[j].trans != trans
      {
        if list[i].trans == trans {
          break;
        }
        i := i + 1;
      }
      if i == |list| {
        return -1;
      }
      list := list[..i] + list[i + 1..];
      return 0;
    }

    /** The id of the first overdue timer, 0 if there is none. */
    method Check(t: int) returns (id: nat)
      ensures id == OverdueId(list, t)
    {
      var i := 0;
      while i < |list|
        invariant i <= |list| && forall j :: 0 <= j < i ==> list[j].endT > t
      {
        if list[i].endT <= t {
          break;
        }
        i := i + 1;
      }
      return if i >= |list| then 0 else list[i].id;
    }

    method Get(id: nat) returns (job: Option<(string, char, Bytes)>)
      ensures job == if id == 0 || IndexOfTimer(list, id) == |list| then None
                     else var x := list[IndexOfTimer(list, id)]; Some((Cut(x.servicio, NAME_WIDTH), x.tipo, x.msg))
    {
      if id == 0 {
        return None;
      }
      var i := Find(id);
      if i == |list| {
        return None;
      }
      return Some((Cut(list[i].servicio, NAME_WIDTH), list[i].tipo, list[i].msg));
    }

    method Rest(t: int, maxWait: int) returns (rest: int)
      ensures rest == RestOf(list, t, maxWait)
    {
      rest := -1;
      var i := 0;
      while i < |list|
        invariant i <= |list|
        invariant i == 0 ==> rest == -1
        invariant i > 0 ==> LeastRemaining(list[..i], t) > 0 && rest == 100 * LeastRemaining(list[..i], t)
      {
        var dif := (list[i].endT - t) * 100;
        LeastOfPrefix(list, i, t);
        if dif > 0 {
          if dif < rest || rest < 0 {
            rest := dif;
          }
        } else {
          rest := 0;
          LeastBelowPrefix(list, i + 1, t);
          break;
        }
        i := i + 1;
      }
      assert list[..|list|] == list;
      if rest < 0 {
        rest := -1;
      }
      if maxWait > 0 && rest > maxWait {
        rest := maxWait;
      }
    }

    method Message(t: int, req: Request) returns (reply: Reply)
      modifies this
      ensures sent == old(sent)
      ensures (Now(), reply) == Handle(old(Now()), t, req)
    {
      match req
      case SetTimer(delay, at, servicio, modo, repeat, trans, msg) =>
        var id;
        if delay != 0 && at == 0 {
          id := Set(t, delay, servicio, modo, trans, msg, repeat);
        } else if at != 0 && delay == 0 {
          id := At(t, at, servicio, modo, trans, msg);
        } else {
          return Failed;
        }
        return if id == 0 then Failed else TimerId(id);
      case KillTimer(id) =>
        var rc := DelId(id);
        return if rc != 0 then Failed else Done;
      case EndTrans(trans) =>
        var rc := DelTrans(trans);
        return if rc != 0 then Failed else Done;
    }

    /** The body of the drain loop for the timer `idx`; false if it could not be found. */
    method Fire(idx: nat) returns (found: bool)
      modifies this`list, this`sent
      ensures found == (idx != 0 && IndexOfTimer(old(list), idx) < |old(list)|)
      ensures found ==> var i := IndexOfTimer(old(list), idx);
                        var x := old(list)[i];
                        list == Acknowledged(old(list), i) && sent == old(sent) + Emit(x.servicio, x.tipo, x.msg)
      ensures !found ==> list == old(list) && sent == old(sent)
    {
      var job := Get(idx);
      if job.None? {
        return false;
      }
      var (servicio, tipo, msg) := job.value;
      if tipo == GM_MSG_TYPE_MSG {
        sent := sent + [Posted(servicio, msg)];
      } else if tipo == GM_MSG_TYPE_NOT {
        sent := sent + [Notified(servicio, msg)];
      }
      var _ := Ok(idx);
      return true;
    }

    /** That body in the middle of a drain: the timer is found, and the work left shrinks. */
    method FireNext(idx: nat, t: int, ghost before: seq<Timer>, ghost sentBefore: seq<Emission>, ghost fired: seq<nat>)
      returns (found: bool)
      requires AtLoop(Now(), sent, before, sentBefore, fired, t) && idx == OverdueId(list, t) && idx > 0
      modifies this`list, this`sent
      ensures found && AtLoop(Now(), sent, before, sentBefore, fired + [idx], t)
      ensures |Fired(list, t)| < |Fired(old(list), t)|
    {
      FoundId(Now(), t);
      DrainStep(Now(), sent, before, sentBefore, fired, t);
      found := Fire(idx);
    }

    /** The drain loop: it ends, every timer fires as often as it has deadlines up to `t`, and the
        messages go out in the order of `Fired`. */
    method Drain(t: int)
      requires Good(Now())
      modifies this
      ensures Now() == old(Now()).(list := Drained(old(list), t))
      ensures sent == old(sent) + EmittedBy(old(list), Fired(old(list), t))
    {
      ghost var before, sentBefore := list, sent;
      ghost var fired: seq<nat> := [];
      DrainStarts(Now(), sent, t);
      var idx := Check(t);
      while idx > 0
        invariant lastId == old(lastId) && AtLoop(Now(), sent, before, sentBefore, fired, t)
        invariant idx == OverdueId(list, t)
        decreases |Fired(list, t)|
      {
        var found := FireNext(idx, t, before, sentBefore, fired);
        fired := fired + [idx];
        if !found {
          break;
        }
        idx := Check(t);
      }
      FoundId(Now(), t);
      DrainEnds(Now(), sent, before, sentBefore, fired, t);
    }

    method TimeOut(t: int, maxWait: int) returns (rest: int)
      requires Good(Now())
      modifies this
      ensures Now() == old(Now()).(list := Drained(old(list), t))
      ensures sent == old(sent) + EmittedBy(old(list), Fired(old(list), t))
      ensures rest == RestOf(list, t, maxWait)
    {
      Drain(t);
      rest := Rest(t, maxWait);
    }

    /** The body of the server loop; `wait` is the argument of the next `Wait`. */
    method Loop(w: Wake) returns (wait: int)
      requires Good(Now())
      modifies this
      ensures Now() == Turn(old(Now()), w) && sent == old(sent) + SentInTurn(old(Now()), w)
      ensures wait == RestOf(list, w.t, -1)
    {
      TurnKeepsGood(Now(), w);
      if w.req.Some? {
        var reply := Message(w.t, w.req.value);
      }
      wait := TimeOut(w.t, -1);
    }

    /** The server from its start until `Wait` fails. */
    method Serve(wakes: seq<Wake>)
      requires Good(Now())
      modifies this
      ensures Now() == Run(old(Now()), wakes) && sent == old(sent) + SentInRun(old(Now()), wakes)
    {
      ghost var start, sentBefore := Now(), sent;
      ServingStarts(start, sentBefore, wakes);
      var wait := -1;
      var i := 0;
      while i < |wakes|
        invariant i <= |wakes| && Serving(Now(), sent, start, sentBefore, wakes, i)
      {
        ServesOn(Now(), sent, start, sentBefore, wakes, i);
        wait := Loop(wakes[i]);
        i := i + 1;
      }
      ServingEnds(Now(), sent, start, sentBefore, wakes);
    }
  }

  lemma {:induction false} LeastOfPrefix(list: seq<Timer>, i: nat, t: int)
    requires i < |list|
    ensures LeastRemaining(list[..i + 1], t) ==
            if i == 0 then list[i].endT - t else Min(LeastRemaining(list[..i], t), list[i].endT - t)
  {
    if i > 0 {
      LeastAppend(list[..i], list[i], t);
      assert list[..i + 1] == list[..i] + [list[i]];
    }
  }

  lemma {:induction false} LeastAppend(list: seq<Timer>, x: Timer, t: int)
    requires list != []
    ensures LeastRemaining(list + [x], t) == Min(LeastRemaining(list, t), x.endT - t)
  {
    assert (list + [x])[1..] == list[1..] + [x];
    if |list| > 1 {
      LeastAppend(list[1..], x, t);
    }
  }

  lemma {:induction false} LeastBelowPrefix(list: seq<Timer>, i: nat, t: int)
    requires 0 < i <= |list|
    ensures LeastRemaining(list, t) <= LeastRemaining(list[..i], t)
  {
    LeastIsLeast(list, t);
    LeastIsLeast(list[..i], t);
    var x :| x in list[..i] && LeastRemaining(list[..i], t) == x.endT - t;
    assert x in list;
  }
}
