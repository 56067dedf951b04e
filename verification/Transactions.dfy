/** The transaction manager (gm_transac/gm_transac.cc, transac.cc, wtimer.cc): a table of
    deadlines keyed by transaction id, and the events it posts to every participant. The clock is
    a parameter, read once for each turn of the server loop. */
module Transactions {
  import opened Common

  const LAST_ID: nat := 9999

  datatype Entry = Entry(key: nat, endTime: int)

  datatype Event = Begin(id: nat) | Commit(id: nat) | Abort(id: nat)

  datatype Request = BeginTrans(timeout: nat) | CommitTrans(id: nat) | AbortTrans(id: nat)

  datatype State = State(count: nat, table: seq<Entry>)

  /** The server wakes at a time, with a request or because its wait has ended. */
  datatype Wake = Wake(t: int, req: Option<Request>)

  const INITIAL: State := State(1, [])

  function IndexOfKey(table: seq<Entry>, key: nat): (i: nat)
    ensures i <= |table|
    ensures i < |table| ==> table[i].key == key
    ensures forall j :: 0 <= j < i ==> table[j].key != key
  {
    First(table, (e: Entry) => e.key == key)
  }

  predicate Live(table: seq<Entry>, id: nat) {
    exists i :: 0 <= i < |table| && table[i].key == id
  }

  function NextCount(count: nat): nat {
    if count + 1 > LAST_ID then 1 else count + 1
  }

  /** The id that the next begin is answered with: the next number, or 0 if that one is live. */
  function NextAnswer(st: State): nat {
    if Live(st.table, NextCount(st.count)) then 0 else NextCount(st.count)
  }

  function Without(table: seq<Entry>, i: nat): seq<Entry>
    requires i < |table|
  {
    table[..i] + table[i + 1..]
  }

  /** A commit or an abort; it is announced only if the transaction was live. */
  function End(st: State, id: nat, event: Event): (State, seq<Event>) {
    var i := IndexOfKey(st.table, id);
    if i == |st.table| then (st, []) else (st.(table := Without(st.table, i)), [event])
  }

  function Handle(st: State, t: int, req: Request): (State, seq<Event>) {
    match req
    case BeginTrans(timeout) =>
      var id := NextAnswer(st);
      (State(NextCount(st.count), if id == 0 then st.table else st.table + [Entry(id, t + timeout)]), [Begin(id)])
    case CommitTrans(id) => End(st, id, Commit(id))
    case AbortTrans(id) => End(st, id, Abort(id))
  }

  predicate Overdue(e: Entry, t: int) {
    e.endTime != 0 && e.endTime <= t
  }

  /** The first overdue entry, or the length of the table. */
  function FirstOverdue(table: seq<Entry>, t: int): (i: nat)
    ensures i <= |table|
    ensures i < |table| ==> Overdue(table[i], t)
    ensures forall j :: 0 <= j < i ==> !Overdue(table[j], t)
  {
    First(table, (e: Entry) => Overdue(e, t))
  }

  /** What a drain at time `t` posts about one entry. */
  function EventOf(e: Entry, t: int): seq<Event> {
    if Overdue(e, t) then [Abort(e.key)] else []
  }

  /** The aborts of a drain at time `t`, in table order, and the table that it leaves. */
  function Expired(table: seq<Entry>, t: int): seq<Event> {
    if table == [] then []
    else EventOf(table[0], t) + Expired(table[1..], t)
  }

  function Kept(table: seq<Entry>, t: int): seq<Entry> {
    if table == [] then []
    else (if Overdue(table[0], t) then [] else [table[0]]) + Kept(table[1..], t)
  }

  function Handled(st: State, w: Wake): (State, seq<Event>) {
    if w.req.Some? then Handle(st, w.t, w.req.value) else (st, [])
  }

  /** One turn of the server loop. */
  function Turn(st: State, w: Wake): (State, seq<Event>) {
    var (mid, events) := Handled(st, w);
    (mid.(table := Kept(mid.table, w.t)), events + Expired(mid.table, w.t))
  }

  /** The state after a run, and every event posted in it. */
  function Run(st: State, wakes: seq<Wake>): (State, seq<Event>)
    decreases |wakes|
  {
    if wakes == [] then (st, [])
    else
      var (before, events) := Run(st, wakes[..|wakes| - 1]);
      var (after, more) := Turn(before, wakes[|wakes| - 1]);
      (after, events + more)
  }

  // ----- What every state keeps -----

  ghost predicate Good(st: State) {
    && 1 <= st.count <= LAST_ID
    && (forall i :: 0 <= i < |st.table| ==> 1 <= st.table[i].key <= LAST_ID)
    && DistinctKeys(st.table)
  }

  ghost predicate DistinctKeys(table: seq<Entry>) {
    forall i, j :: 0 <= i < j < |table| ==> table[i].key != table[j].key
  }

  lemma WithoutIsGood(st: State, i: nat)
    requires Good(st) && i < |st.table|
    ensures Good(st.(table := Without(st.table, i)))
  {}

  lemma BeginKeepsGood(st: State, t: int, timeout: nat)
    requires Good(st)
    ensures Good(Handle(st, t, BeginTrans(timeout)).0)
  {
    assert Live(st.table, NextCount(st.count)) || forall i :: 0 <= i < |st.table| ==> st.table[i].key != NextCount(st.count);
  }

  lemma {:induction false} KeptIsPart(table: seq<Entry>, t: int)
    ensures forall e :: e in Kept(table, t) <==> e in table && !Overdue(e, t)
  {
    if table != [] {
      KeptIsPart(table[1..], t);
    }
  }

  lemma DistinctPrepended(e: Entry, rest: seq<Entry>)
    ensures DistinctKeys([e] + rest) <==> DistinctKeys(rest) && forall x :: x in rest ==> x.key != e.key
  {
    var table := [e] + rest;
    assert forall i :: 0 <= i < |rest| ==> table[i + 1] == rest[i];
    assert table[0] == e;
    if DistinctKeys(table) {
      forall i, j | 0 <= i < j < |rest| ensures rest[i].key != rest[j].key {
        assert table[i + 1].key != table[j + 1].key;
      }
    }
  }

  lemma {:induction false} KeptKeys(table: seq<Entry>, t: int)
    requires DistinctKeys(table)
    ensures DistinctKeys(Kept(table, t))
  {
    if table == [] {
    } else {
      assert [table[0]] + table[1..] == table;
      DistinctPrepended(table[0], table[1..]);
      KeptKeys(table[1..], t);
      KeptIsPart(table[1..], t);
      DistinctPrepended(table[0], Kept(table[1..], t));
      assert [] + Kept(table[1..], t) == Kept(table[1..], t);
    }
  }

  lemma {:induction false} KeptGood(st: State, t: int)
    requires Good(st)
    ensures Good(st.(table := Kept(st.table, t)))
  {
    KeptKeys(st.table, t);
    KeptIsPart(st.table, t);
    assert forall i :: 0 <= i < |Kept(st.table, t)| ==> Kept(st.table, t)[i] in st.table;
  }

  lemma {:induction false} DrainedInFront(e: Entry, rest: seq<Entry>, t: int)
    ensures Expired([e] + rest, t) == EventOf(e, t) + Expired(rest, t)
    ensures Kept([e] + rest, t) == if Overdue(e, t) then Kept(rest, t) else [e] + Kept(rest, t)
  {
    assert ([e] + rest)[1..] == rest;
    assert [] + Kept(rest, t) == Kept(rest, t);
  }

  lemma TurnIsGood(st: State, w: Wake)
    requires Good(st)
    ensures Good(Handled(st, w).0) && Good(Turn(st, w).0)
  {
    match w.req {
      case None =>
      case Some(BeginTrans(timeout)) => BeginKeepsGood(st, w.t, timeout);
      case Some(CommitTrans(ended)) => EndKeepsGood(st, ended, Commit(ended));
      case Some(AbortTrans(ended)) => EndKeepsGood(st, ended, Abort(ended));
    }
    KeptGood(Handled(st, w).0, w.t);
  }

  lemma EndKeepsGood(st: State, ended: nat, event: Event)
    requires Good(st)
    ensures Good(End(st, ended, event).0)
  {
    if IndexOfKey(st.table, ended) < |st.table| {
      WithoutIsGood(st, IndexOfKey(st.table, ended));
    }
  }

  // ----- How long the server waits -----

  /** `NextTo`: the least time left, but not less than 0; -1 if there is no deadline. */
  ghost predicate IsWait(table: seq<Entry>, t: int, wait: int) {
    && wait >= -1
    && (forall i :: 0 <= i < |table| && table[i].endTime != 0 ==> 0 <= wait && (wait > 0 ==> t + wait <= table[i].endTime))
    && (wait >= 0 ==> exists i :: 0 <= i < |table| && table[i].endTime != 0 &&
                                  (if wait > 0 then t + wait == table[i].endTime else table[i].endTime <= t))
  }

  lemma WaitOfMore(table: seq<Entry>, e: Entry, t: int, before: int, wait: int)
    requires IsWait(table, t, before)
    requires wait == if e.endTime != 0 && (before < 0 || e.endTime - t < before)
                     then (if e.endTime < t then 0 else e.endTime - t) else before
    ensures IsWait(table + [e], t, wait)
  {
    var next := table + [e];
    assert next[|table|] == e;
    assert forall i :: 0 <= i < |table| ==> next[i] == table[i];
  }

  const MAX_INT: int := 0x7FFF_FFFF

  /** What an `int` of 32 bits keeps of a number. */
  function ToInt(x: int): int {
    (x + MAX_INT + 1) % (2 * (MAX_INT + 1)) - MAX_INT - 1
  }

  lemma ToIntSame(x: int)
    ensures -MAX_INT - 1 <= ToInt(x) <= MAX_INT
    ensures ToInt(x) == x <==> -MAX_INT - 1 <= x <= MAX_INT
  {}

  /** No deadline is so far away that the seconds to it do not fit an `int`. */
  ghost predicate IsNear(table: seq<Entry>, t: int) {
    forall i :: 0 <= i < |table| && table[i].endTime != 0 ==> -MAX_INT <= table[i].endTime - t <= MAX_INT
  }

  lemma NearWait(table: seq<Entry>, i: nat, t: int, before: int, wait: int)
    requires IsNear(table, t) && i < |table| && IsWait(table[..i], t, before)
    requires var left := table[i].endTime - t;
             wait == if table[i].endTime != 0 && (before < 0 || left < before)
                     then (if ToInt(left) < 0 then 0 else ToInt(left)) else before
    ensures IsWait(table[..i + 1], t, wait)
  {
    ToIntSame(table[i].endTime - t);
    WaitOfMore(table[..i], table[i], t, before, wait);
    assert table[..i + 1] == table[..i] + [table[i]];
  }

  /** The argument of the next `Wait`: the seconds left, in hundredths. */
  function Hundredths(wait: int): int {
    if wait > 0 then ToInt(100 * wait) else wait
  }

  ghost predicate IsPause(table: seq<Entry>, t: int, pause: int) {
    exists wait :: IsWait(table, t, wait) && pause == Hundredths(wait)
  }

  // ----- The drain loop -----

  /** An entry in front that is not overdue stays in front. */
  lemma {:induction false} InFront(e: Entry, rest: seq<Entry>, t: int)
    requires !Overdue(e, t)
    ensures Kept([e] + rest, t) == [e] + Kept(rest, t) && Expired([e] + rest, t) == Expired(rest, t)
  {
    DrainedInFront(e, rest, t);
    assert [] + Expired(rest, t) == Expired(rest, t);
  }

  lemma {:induction false} FirstInFront(e: Entry, rest: seq<Entry>, t: int)
    requires !Overdue(e, t)
    ensures FirstOverdue([e] + rest, t) == 1 + FirstOverdue(rest, t)
  {
    assert ([e] + rest)[1..] == rest;
  }

  lemma WithoutInFront(e: Entry, rest: seq<Entry>, i: nat)
    requires i < |rest|
    ensures Without([e] + rest, i + 1) == [e] + Without(rest, i)
  {}

  /** The first overdue entry is the next to go, and a table without one stays. */
  ghost predicate FirstGoes(table: seq<Entry>, t: int) {
    var i := FirstOverdue(table, t);
    if i == |table| then Kept(table, t) == table && Expired(table, t) == []
    else Kept(table, t) == Kept(Without(table, i), t) &&
         Expired(table, t) == [Abort(table[i].key)] + Expired(Without(table, i), t)
  }

  lemma {:induction false} OverdueInFront(e: Entry, rest: seq<Entry>, t: int)
    requires Overdue(e, t)
    ensures FirstGoes([e] + rest, t)
  {
    var table := [e] + rest;
    assert table[1..] == rest && Without(table, 0) == rest;
    assert [] + Kept(rest, t) == Kept(rest, t);
  }

  lemma {:induction false} OneMoreInFront(e: Entry, rest: seq<Entry>, t: int)
    requires !Overdue(e, t) && FirstGoes(rest, t)
    ensures FirstGoes([e] + rest, t)
  {
    var i := FirstOverdue(rest, t);
    FirstInFront(e, rest, t);
    InFront(e, rest, t);
    if i < |rest| {
      WithoutInFront(e, rest, i);
      InFront(e, Without(rest, i), t);
    }
  }

  lemma {:induction false} FirstOverdueGoes(table: seq<Entry>, t: int)
    ensures FirstGoes(table, t)
  {
    if table == [] {
    } else {
      var e, rest := table[0], table[1..];
      assert table == [e] + rest;
      FirstOverdueGoes(rest, t);
      if Overdue(e, t) {
        OverdueInFront(e, rest, t);
      } else {
        OneMoreInFront(e, rest, t);
      }
    }
  }

  ghost predicate Numbered(table: seq<Entry>) {
    forall i :: 0 <= i < |table| ==> table[i].key >= 1
  }

  /** The abort that the loop is about to post. */
  function Pending(id: nat): seq<Event> {
    if id == 0 then [] else [Abort(id)]
  }

  /** One call of `Check`: the first overdue entry goes; `id` is 0 if there is none. */
  ghost predicate Checked(table: seq<Entry>, t: int, left: seq<Entry>, id: nat) {
    var i := FirstOverdue(table, t);
    if i == |table| then id == 0 && left == table
    else id == table[i].key && left == Without(table, i)
  }

  lemma {:induction false} CheckTakesOne(table: seq<Entry>, t: int, left: seq<Entry>, id: nat)
    requires Numbered(table) && Checked(table, t, left, id)
    ensures Numbered(left) && |left| + |Pending(id)| == |table|
    ensures Kept(left, t) == Kept(table, t) && Pending(id) + Expired(left, t) == Expired(table, t)
    ensures id == 0 ==> Kept(left, t) == left && Expired(left, t) == []
  {
    FirstOverdueGoes(table, t);
  }

  /** In a drain of `before`, which began with `sent` posted; the abort of `next` is not yet posted. */
  ghost predicate Draining(table: seq<Entry>, posted: seq<Event>, next: nat, before: seq<Entry>, sent: seq<Event>, t: int) {
    && Numbered(table)
    && Kept(table, t) == Kept(before, t)
    && posted + (Pending(next) + Expired(table, t)) == sent + Expired(before, t)
    && (next == 0 ==> Kept(table, t) == table && Expired(table, t) == [])
  }

  lemma DrainBegins(before: seq<Entry>, sent: seq<Event>, left: seq<Entry>, id: nat, t: int)
    requires Numbered(before) && Checked(before, t, left, id)
    ensures Draining(left, sent, id, before, sent, t)
  {
    CheckTakesOne(before, t, left, id);
  }

  lemma DrainGoesOn(table: seq<Entry>, posted: seq<Event>, next: nat, before: seq<Entry>, sent: seq<Event>,
                    left: seq<Entry>, id: nat, t: int)
    requires Draining(table, posted, next, before, sent, t) && next > 0 && Checked(table, t, left, id)
    ensures Draining(left, posted + [Abort(next)], id, before, sent, t)
    ensures |left| + |Pending(id)| == |table|
  {
    CheckTakesOne(table, t, left, id);
    var more := Expired(table, t);
    assert posted + (Pending(next) + more) == (posted + [Abort(next)]) + more;
  }

  lemma {:induction false} DrainEnds(table: seq<Entry>, posted: seq<Event>, before: seq<Entry>, sent: seq<Event>, t: int)
    requires Draining(table, posted, 0, before, sent, t)
    ensures table == Kept(before, t) && posted == sent + Expired(before, t)
  {
    assert posted + ([] + []) == posted;
  }

  lemma {:induction false} RunNext(wakes: seq<Wake>, i: nat)
    requires i < |wakes|
    ensures var (st, events) := Run(INITIAL, wakes[..i]);
            Run(INITIAL, wakes[..i + 1]) == (Turn(st, wakes[i]).0, events + Turn(st, wakes[i]).1)
  {
    assert wakes[..i + 1][..i] == wakes[..i] && wakes[..i + 1][i] == wakes[i];
  }

  // ----- The server object -----

  class Server {
    var count: nat
    var table: seq<Entry>
    var posted: seq<Event>

    ghost function Now(): State
      reads this
    {
      State(count, table)
    }

    constructor ()
      ensures Now() == INITIAL && posted == []
    {
      count := 1;
      table := [];
      posted := [];
    }

    method Exist(key: nat) returns (found: bool)
      ensures found <==> Live(table, key)
    {
      var i := 0;
      while i < |table|
        invariant i <= |table| && forall j :: 0 <= j < i ==> table[j].key != key
      {
        if table[i].key == key {
          return true;
        }
        i := i + 1;
      }
      return false;
    }

    method Add(key: nat, t: int, timeout: nat) returns (rc: int)
      modifies this`table
      ensures rc == if Live(old(table), key) then -1 else 0
      ensures table == if rc == 0 then old(table) + [Entry(key, t + timeout)] else old(table)
    {
      var found := Exist(key);
      if found {
        return -1;
      }
      table := table + [Entry(key, t + timeout)];
      return 0;
    }

    method New(t: int, timeout: nat) returns (id: nat)
      modifies this`count, this`table
      ensures id == NextAnswer(old(Now()))
      ensures Now() == Handle(old(Now()), t, BeginTrans(timeout)).0
    {
      count := count + 1;
      if count > LAST_ID {
        count := 1;
      }
      var rc := Add(count, t, timeout);
      return if rc == 0 then count else 0;
    }

    method Del(id: nat) returns (rc: int)
      modifies this`table
      ensures rc == if IndexOfKey(old(table), id) == |old(table)| then -1 else 0
      ensures table == if rc == 0 then Without(old(table), IndexOfKey(old(table), id)) else old(table)
    {
      var i := 0;
      while i < |table|
        invariant i <= |table| && table == old(table) && forall j :: 0 <= j < i ==> table[j].key != id
      {
        if table[i].key == id {
          table := table[..i] + table[i + 1..];
          return 0;
        }
        i := i + 1;
      }
      return -1;
    }

    /** Takes the first overdue entry out of the table; 0 if there is none. */
    method Check(t: int) returns (id: nat)
      modifies this`table
      ensures Checked(old(table), t, table, id)
    {
      var i := 0;
      while i < |table|
        invariant i <= |table| && table == old(table) && forall j :: 0 <= j < i ==> !Overdue(table[j], t)
      {
        if table[i].endTime != 0 && table[i].endTime <= t {
          id := table[i].key;
          table := table[..i] + table[i + 1..];
          return;
        }
        i := i + 1;
      }
      return 0;
    }

    method NextTo(t: int) returns (wait: int)
      ensures IsNear(table, t) ==> IsWait(table, t, wait)
    {
      wait := -1;
      var i := 0;
      while i < |table|
        invariant i <= |table| && -1 <= wait
        invariant IsNear(table, t) ==> IsWait(table[..i], t, wait)
      {
        ghost var before := wait;
        if table[i].endTime != 0 && (wait < 0 || table[i].endTime - t < wait) {
          wait := ToInt(table[i].endTime - t);
          if wait < 0 {
            wait := 0;
          }
        }
        if IsNear(table, t) {
          NearWait(table, i, t, before, wait);
        }
        i := i + 1;
      }
      assert table[..i] == table;
    }

    /** Aborts every transaction that is overdue. */
    method Drain(t: int)
      requires Good(Now())
      modifies this`table, this`posted
      ensures table == Kept(old(table), t) && posted == old(posted) + Expired(old(table), t)
    {
      ghost var before, sent := table, posted;
      var transTo := Check(t);
      DrainBegins(before, sent, table, transTo, t);
      while transTo > 0
        invariant Draining(table, posted, transTo, before, sent, t)
        decreases |table| + |Pending(transTo)|
      {
        ghost var now, was, id := table, posted, transTo;
        posted := posted + [Abort(transTo)];
        transTo := Check(t);
        DrainGoesOn(now, was, id, before, sent, table, transTo, t);
      }
      DrainEnds(table, posted, before, sent, t);
    }

    /** Serves a request and posts what came of it. */
    method Take(t: int, req: Request)
      modifies this
      ensures Now() == Handle(old(Now()), t, req).0 && posted == old(posted) + Handle(old(Now()), t, req).1
    {
      match req {
        case BeginTrans(timeout) =>
          var id := New(t, timeout);
          posted := posted + [Begin(id)];
        case CommitTrans(id) =>
          var rc := Del(id);
          if rc == 0 {
            posted := posted + [Commit(id)];
          }
        case AbortTrans(id) =>
          var rc := Del(id);
          if rc == 0 {
            posted := posted + [Abort(id)];
          }
      }
    }

    /** Request and drain of one turn. */
    method TakeAndDrain(w: Wake)
      requires Good(Now())
      modifies this
      ensures Now() == Turn(old(Now()), w).0 && posted == old(posted) + Turn(old(Now()), w).1
    {
      TurnIsGood(Now(), w);
      ghost var st, sent := Now(), posted;
      if w.req.Some? {
        Take(w.t, w.req.value);
      }
      assert Now() == Handled(st, w).0 && posted == sent + Handled(st, w).1;
      Drain(w.t);
      Associate(sent, Handled(st, w).1, Expired(Handled(st, w).0.table, w.t));
    }

    /** The body of the server loop; `pause` is the argument of the next `Wait`. */
    method Loop(w: Wake) returns (pause: int)
      requires Good(Now())
      modifies this
      ensures Now() == Turn(old(Now()), w).0 && posted == old(posted) + Turn(old(Now()), w).1
      ensures IsNear(table, w.t) ==> IsPause(table, w.t, pause)
    {
      TakeAndDrain(w);
      pause := NextTo(w.t);
      ghost var wait := pause;
      if pause > 0 {
        pause := ToInt(pause * 100);
      }
      assert pause == Hundredths(wait);
    }

    /** The server from its start until `Wait` fails. */
    method Serve(wakes: seq<Wake>)
      requires Now() == INITIAL && posted == []
      modifies this
      ensures Now() == Run(INITIAL, wakes).0 && posted == Run(INITIAL, wakes).1
    {
      var i := 0;
      var wait := -1;
      while i < |wakes|
        invariant i <= |wakes| && Good(Now()) && (Now(), posted) == Run(INITIAL, wakes[..i])
      {
        TurnIsGood(Now(), wakes[i]);
        RunNext(wakes, i);
        wait := Loop(wakes[i]);
        i := i + 1;
      }
      assert wakes[..i] == wakes;
    }
  }
}
