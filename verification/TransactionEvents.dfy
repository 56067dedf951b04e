/** What the events of every run of the transaction manager are: begins and outcomes in turn, and ids in
    turn. */
module TransactionEvents {
  import opened Common
  import opened Transactions

  // ----- Begins and outcomes -----

  /** The events about one id, in order. */
  function Of(h: seq<Event>, id: nat): seq<Event> {
    if h == [] then [] else (if h[0].id == id then [h[0]] else []) + Of(h[1..], id)
  }

  /** Begin, outcome, begin, outcome, ... */
  ghost predicate Alternates(p: seq<Event>) {
    forall i :: 0 <= i < |p| ==> (p[i].Begin? <==> i % 2 == 0)
  }

  ghost predicate Faithful(table: seq<Entry>, h: seq<Event>, id: nat) {
    Alternates(Of(h, id)) && (Live(table, id) <==> |Of(h, id)| % 2 == 1)
  }

  lemma {:induction false} OfAppend(a: seq<Event>, b: seq<Event>, id: nat)
    ensures Of(a + b, id) == Of(a, id) + Of(b, id)
  {
    if a == [] {
      assert a + b == b;
    } else {
      assert (a + b)[0] == a[0] && (a + b)[1..] == a[1..] + b;
      OfAppend(a[1..], b, id);
      Associate(if a[0].id == id then [a[0]] else [], Of(a[1..], id), Of(b, id));
    }
  }

  lemma {:induction false} OneEvent(h: seq<Event>, e: Event, id: nat)
    ensures Of(h + [e], id) == Of(h, id) + if e.id == id then [e] else []
  {
    OfAppend(h, [e], id);
    assert Of([e][1..], id) == [];
  }

  lemma IndexMeansLive(table: seq<Entry>, id: nat)
    ensures IndexOfKey(table, id) < |table| <==> Live(table, id)
  {}

  lemma LiveAppended(table: seq<Entry>, e: Entry, id: nat)
    ensures Live(table + [e], id) <==> Live(table, id) || e.key == id
  {
    var next := table + [e];
    assert next[|table|] == e;
    assert forall i :: 0 <= i < |table| ==> next[i] == table[i];
  }

  lemma StaysWithout(table: seq<Entry>, i: nat, j: nat)
    requires i < |table| && j < |table| && j != i
    ensures Live(Without(table, i), table[j].key)
  {
    assert Without(table, i)[if j < i then j else j - 1] == table[j];
  }

  lemma LiveWithout(st: State, i: nat, id: nat)
    requires Good(st) && i < |st.table|
    ensures Live(Without(st.table, i), id) <==> Live(st.table, id) && st.table[i].key != id
  {
    if Live(st.table, id) {
      var j :| 0 <= j < |st.table| && st.table[j].key == id;
      if j != i {
        StaysWithout(st.table, i, j);
      }
    }
    if Live(Without(st.table, i), id) {
      var k :| 0 <= k < |Without(st.table, i)| && Without(st.table, i)[k].key == id;
      WasBefore(st.table, i, k);
    }
  }

  lemma WasBefore(table: seq<Entry>, i: nat, k: nat)
    requires i < |table| && k < |Without(table, i)|
    ensures exists j :: 0 <= j < |table| && j != i && table[j] == Without(table, i)[k]
  {
    assert table[if k < i then k else k + 1] == Without(table, i)[k];
  }

  lemma HandleIsFaithful(st: State, t: int, req: Request, h: seq<Event>, id: nat)
    requires Good(st) && id != 0 && Faithful(st.table, h, id)
    ensures var (next, events) := Handle(st, t, req);
            Good(next) && Faithful(next.table, h + events, id)
  {
    match req
    case BeginTrans(timeout) => BeginIsFaithful(st, t, timeout, h, id);
    case CommitTrans(ended) => EndIsFaithful(st, ended, Commit(ended), h, id);
    case AbortTrans(ended) => EndIsFaithful(st, ended, Abort(ended), h, id);
  }

  lemma Longer(p: seq<Event>, e: Event)
    requires Alternates(p) && (e.Begin? <==> |p| % 2 == 0)
    ensures Alternates(p + [e])
  {}

  lemma BeginIsFaithful(st: State, t: int, timeout: nat, h: seq<Event>, id: nat)
    requires Good(st) && id != 0 && Faithful(st.table, h, id)
    ensures var (next, events) := Handle(st, t, BeginTrans(timeout));
            Good(next) && Faithful(next.table, h + events, id)
  {
    var given := NextAnswer(st);
    BeginKeepsGood(st, t, timeout);
    OneEvent(h, Begin(given), id);
    if given == id {
      LiveAppended(st.table, Entry(given, t + timeout), id);
      Longer(Of(h, id), Begin(id));
    } else if given != 0 {
      LiveAppended(st.table, Entry(given, t + timeout), id);
    }
  }

  lemma EndIsFaithful(st: State, ended: nat, e: Event, h: seq<Event>, id: nat)
    requires Good(st) && id != 0 && Faithful(st.table, h, id) && e.id == ended && !e.Begin?
    ensures var (next, events) := End(st, ended, e);
            Good(next) && Faithful(next.table, h + events, id)
  {
    assert h + [] == h;
    var i := IndexOfKey(st.table, ended);
    if i < |st.table| {
      WithoutIsGood(st, i);
      LiveWithout(st, i, id);
      OneEvent(h, e, id);
      assert Live(st.table, ended);
    }
  }

  lemma NotInRest(e: Entry, rest: seq<Entry>)
    requires forall x :: x in rest ==> x.key != e.key
    ensures IndexOfKey(rest, e.key) == |rest|
  {
    assert forall i :: 0 <= i < |rest| ==> rest[i] in rest;
  }

  lemma {:induction false} IndexInFront(e: Entry, rest: seq<Entry>, id: nat)
    ensures IndexOfKey([e] + rest, id) == if e.key == id then 0 else 1 + IndexOfKey(rest, id)
  {
    var table := [e] + rest;
    assert table[0] == e && forall i :: 0 <= i < |rest| ==> table[i + 1] == rest[i];
    var i := IndexOfKey(table, id);
    if 0 < i < |table| {
      assert rest[i - 1].key == id;
    }
  }

  lemma {:induction false} EventOfId(e: Entry, t: int, id: nat)
    ensures Of(EventOf(e, t), id) == if Overdue(e, t) && e.key == id then [Abort(id)] else []
  {
    assert Overdue(e, t) ==> [Abort(e.key)][1..] == [];
  }

  predicate OverdueLive(table: seq<Entry>, t: int, id: nat) {
    var i := IndexOfKey(table, id);
    i < |table| && Overdue(table[i], t)
  }

  predicate LaterLive(table: seq<Entry>, t: int, id: nat) {
    var i := IndexOfKey(table, id);
    i < |table| && !Overdue(table[i], t)
  }

  lemma {:induction false} DueInFront(e: Entry, rest: seq<Entry>, t: int, id: nat)
    ensures OverdueLive([e] + rest, t, id) <==> if e.key == id then Overdue(e, t) else OverdueLive(rest, t, id)
    ensures LaterLive([e] + rest, t, id) <==> if e.key == id then !Overdue(e, t) else LaterLive(rest, t, id)
  {
    IndexInFront(e, rest, id);
  }

  ghost predicate AbortedOnce(table: seq<Entry>, t: int, id: nat) {
    Of(Expired(table, t), id) == if OverdueLive(table, t, id) then [Abort(id)] else []
  }

  lemma {:induction false} AbortedInFront(e: Entry, rest: seq<Entry>, t: int, id: nat)
    requires AbortedOnce(rest, t, id) && (e.key == id ==> IndexOfKey(rest, id) == |rest|)
    ensures AbortedOnce([e] + rest, t, id)
  {
    DueInFront(e, rest, t, id);
    DrainedInFront(e, rest, t);
    EventOfId(e, t, id);
    OfAppend(EventOf(e, t), Expired(rest, t), id);
  }

  lemma {:induction false} KeptInFront(e: Entry, rest: seq<Entry>, t: int, id: nat)
    requires (Live(Kept(rest, t), id) <==> LaterLive(rest, t, id)) && (e.key == id ==> IndexOfKey(rest, id) == |rest|)
    ensures Live(Kept([e] + rest, t), id) <==> LaterLive([e] + rest, t, id)
  {
    DueInFront(e, rest, t, id);
    DrainedInFront(e, rest, t);
    LivePrepended(e, Kept(rest, t), id);
  }

  lemma {:induction false} AllAbortedOnce(table: seq<Entry>, t: int, id: nat)
    requires DistinctKeys(table)
    ensures AbortedOnce(table, t, id)
    ensures Live(Kept(table, t), id) <==> LaterLive(table, t, id)
  {
    if table == [] {
      assert Of([], id) == [];
    } else {
      var e, rest := table[0], table[1..];
      assert table == [e] + rest;
      DistinctPrepended(e, rest);
      NotInRest(e, rest);
      AllAbortedOnce(rest, t, id);
      AbortedInFront(e, rest, t, id);
      KeptInFront(e, rest, t, id);
    }
  }

  /** A drain aborts exactly the live transactions that are overdue, each of them once. */
  lemma {:induction false} DrainAborts(st: State, t: int, id: nat)
    requires Good(st)
    ensures var i := IndexOfKey(st.table, id);
            && Of(Expired(st.table, t), id) == (if i < |st.table| && Overdue(st.table[i], t) then [Abort(id)] else [])
            && (Live(Kept(st.table, t), id) <==> i < |st.table| && !Overdue(st.table[i], t))
  {
    AllAbortedOnce(st.table, t, id);
  }

  lemma LivePrepended(e: Entry, table: seq<Entry>, id: nat)
    ensures Live([e] + table, id) <==> Live(table, id) || e.key == id
  {
    var next := [e] + table;
    assert next[0] == e;
    assert forall i :: 0 <= i < |table| ==> next[i + 1] == table[i];
  }

  lemma {:induction false} DrainIsFaithful(st: State, t: int, h: seq<Event>, id: nat)
    requires Good(st) && id != 0 && Faithful(st.table, h, id)
    ensures Faithful(Kept(st.table, t), h + Expired(st.table, t), id)
  {
    var i := IndexOfKey(st.table, id);
    DrainAborts(st, t, id);
    IndexMeansLive(st.table, id);
    if i < |st.table| && Overdue(st.table[i], t) {
      OneOutcome(st.table, h, Kept(st.table, t), Expired(st.table, t), Abort(id), id);
    } else {
      NoNews(st.table, h, Kept(st.table, t), Expired(st.table, t), id);
    }
  }

  lemma {:induction false} NoNews(table: seq<Entry>, h: seq<Event>, table': seq<Entry>, more: seq<Event>, id: nat)
    requires Faithful(table, h, id) && Of(more, id) == [] && (Live(table', id) <==> Live(table, id))
    ensures Faithful(table', h + more, id)
  {
    OfAppend(h, more, id);
    assert Of(h, id) + [] == Of(h, id);
  }

  lemma {:induction false} OneOutcome(table: seq<Entry>, h: seq<Event>, table': seq<Entry>, more: seq<Event>, e: Event, id: nat)
    requires Faithful(table, h, id) && Of(more, id) == [e] && !e.Begin? && Live(table, id) && !Live(table', id)
    ensures Faithful(table', h + more, id)
  {
    OfAppend(h, more, id);
    Longer(Of(h, id), e);
  }

  lemma LastIsBegin(p: seq<Event>)
    requires Alternates(p)
    ensures |p| % 2 == 1 <==> p != [] && p[|p| - 1].Begin?
  {}

  /** In every run, the events about an id are a begin, an outcome, a begin, an outcome and so on,
      and the id is in the table exactly when the last of them is a begin. */
  lemma {:induction false} EveryRunAlternates(wakes: seq<Wake>, id: nat)
    requires id != 0
    ensures var (st, events) := Run(INITIAL, wakes);
            var p := Of(events, id);
            Good(st) && Faithful(st.table, events, id) && (Live(st.table, id) <==> p != [] && p[|p| - 1].Begin?)
    decreases |wakes|
  {
    if wakes == [] {
      assert Of([], id) == [];
    } else {
      var n := |wakes| - 1;
      var (before, events) := Run(INITIAL, wakes[..n]);
      EveryRunAlternates(wakes[..n], id);
      TurnIsFaithful(before, wakes[n], events, id);
      LastEventDecides(Turn(before, wakes[n]).0.table, events + Turn(before, wakes[n]).1, id);
    }
  }

  lemma {:induction false} LastEventDecides(table: seq<Entry>, h: seq<Event>, id: nat)
    requires Faithful(table, h, id)
    ensures var p := Of(h, id); Live(table, id) <==> p != [] && p[|p| - 1].Begin?
  {
    LastIsBegin(Of(h, id));
  }

  lemma TurnIsFaithful(st: State, w: Wake, h: seq<Event>, id: nat)
    requires Good(st) && id != 0 && Faithful(st.table, h, id)
    ensures var (next, events) := Turn(st, w);
            Good(next) && Faithful(next.table, h + events, id)
  {
    var (mid, events) := Handled(st, w);
    assert h + [] == h;
    if w.req.Some? {
      HandleIsFaithful(st, w.t, w.req.value, h, id);
    }
    KeptGood(mid, w.t);
    DrainIsFaithful(mid, w.t, h + events, id);
    assert h + (events + Expired(mid.table, w.t)) == (h + events) + Expired(mid.table, w.t);
  }

  // ----- Which outcome is posted -----

  lemma {:induction false} NoneLeft(table: seq<Entry>, t: int, id: nat)
    requires DistinctKeys(table) && !Live(table, id)
    ensures Of(Expired(table, t), id) == [] && !Live(Kept(table, t), id)
  {
    IndexMeansLive(table, id);
    AllAbortedOnce(table, t, id);
  }

  lemma {:induction false} EndPosts(st: State, id: nat, e: Event)
    requires Good(st) && e.id == id
    ensures var (next, events) := End(st, id, e);
            Good(next) && !Live(next.table, id) && Of(events, id) == if Live(st.table, id) then [e] else []
  {
    var i := IndexOfKey(st.table, id);
    IndexMeansLive(st.table, id);
    assert [e][1..] == [];
    if i < |st.table| {
      WithoutIsGood(st, i);
      LiveWithout(st, i, id);
    }
  }

  /** A turn that brings the commit of a live transaction posts exactly a commit about it, one that brings its abort
      exactly an abort; about a transaction that is not live neither posts anything. It is not live afterwards. */
  lemma {:induction false} RequestedOutcome(st: State, w: Wake, id: nat)
    requires Good(st) && (w.req == Some(CommitTrans(id)) || w.req == Some(AbortTrans(id)))
    ensures var (next, events) := Turn(st, w);
            && !Live(next.table, id)
            && Of(events, id) == if !Live(st.table, id) then [] else if w.req == Some(CommitTrans(id)) then [Commit(id)] else [Abort(id)]
  {
    var e := if w.req.value.CommitTrans? then Commit(id) else Abort(id);
    var (mid, events) := End(st, id, e);
    assert Handled(st, w) == (mid, events);
    EndPosts(st, id, e);
    NoneLeft(mid.table, w.t, id);
    OfAppend(events, Expired(mid.table, w.t), id);
    assert Of(events, id) + [] == Of(events, id);
  }

  lemma {:induction false} ExpiredAborts(table: seq<Entry>, t: int, e: Event)
    requires e in Expired(table, t)
    ensures e.Abort?
  {
    if e !in EventOf(table[0], t) {
      ExpiredAborts(table[1..], t, e);
    }
  }

  /** Nothing but a request to commit makes a turn post a commit. */
  lemma CommitIsRequested(st: State, w: Wake, e: Event)
    requires e in Turn(st, w).1 && e.Commit?
    ensures w.req == Some(CommitTrans(e.id))
  {
    if e in Expired(Handled(st, w).0.table, w.t) {
      ExpiredAborts(Handled(st, w).0.table, w.t, e);
    }
  }

  lemma {:induction false} IsOf(h: seq<Event>, e: Event)
    requires e in h
    ensures e in Of(h, e.id)
  {
    if h[0] != e {
      IsOf(h[1..], e);
    }
  }

  /** Event number `i` of the run was posted in turn `k`. */
  ghost predicate IsPostedIn(wakes: seq<Wake>, i: nat, k: nat) {
    && i < |Run(INITIAL, wakes).1| && k < |wakes|
    && var (st, before) := Run(INITIAL, wakes[..k]);
       var more := Turn(st, wakes[k]).1;
       |before| <= i < |before| + |more| && Run(INITIAL, wakes).1[i] == more[i - |before|]
  }

  lemma {:induction false} EventsOfLastTurn(wakes: seq<Wake>)
    requires wakes != []
    ensures var (st, before) := Run(INITIAL, wakes[..|wakes| - 1]);
            Run(INITIAL, wakes).1 == before + Turn(st, wakes[|wakes| - 1]).1
  {}

  lemma {:induction false} PostedEarlier(wakes: seq<Wake>, n: nat, i: nat, k: nat)
    requires n == |wakes| - 1 && IsPostedIn(wakes[..n], i, k)
    ensures IsPostedIn(wakes, i, k)
  {
    EventsOfLastTurn(wakes);
    assert wakes[..n][..k] == wakes[..k];
  }

  lemma {:induction false} TurnOfEvent(wakes: seq<Wake>, i: nat) returns (k: nat)
    requires i < |Run(INITIAL, wakes).1|
    ensures IsPostedIn(wakes, i, k)
    decreases |wakes|
  {
    assert wakes != [];
    var n := |wakes| - 1;
    EventsOfLastTurn(wakes);
    if i < |Run(INITIAL, wakes[..n]).1| {
      k := TurnOfEvent(wakes[..n], i);
      PostedEarlier(wakes, n, i, k);
    } else {
      k := n;
    }
  }

  /** In every run, an outcome is a commit exactly when the turn that posted it brought a request to commit that
      transaction. */
  lemma {:induction false} CommitsAreThoseRequested(wakes: seq<Wake>, i: nat) returns (k: nat)
    requires i < |Run(INITIAL, wakes).1| && Run(INITIAL, wakes).1[i].id != 0 && !Run(INITIAL, wakes).1[i].Begin?
    ensures IsPostedIn(wakes, i, k)
    ensures var e := Run(INITIAL, wakes).1[i]; e.Commit? <==> wakes[k].req == Some(CommitTrans(e.id))
  {
    k := TurnOfEvent(wakes, i);
    var st := Run(INITIAL, wakes[..k]).0;
    var e := Run(INITIAL, wakes).1[i];
    EveryRunAlternates(wakes[..k], e.id);
    OutcomeOfRequest(st, wakes[k], e);
  }

  lemma {:induction false} OutcomeOfRequest(st: State, w: Wake, e: Event)
    requires Good(st) && e in Turn(st, w).1 && !e.Begin?
    ensures e.Commit? <==> w.req == Some(CommitTrans(e.id))
  {
    if e.Commit? {
      CommitIsRequested(st, w, e);
    } else if w.req == Some(CommitTrans(e.id)) {
      RequestedOutcome(st, w, e.id);
      IsOf(Turn(st, w).1, e);
    }
  }

  // ----- Which ids are given out -----

  /** What the begins of a run were answered, in order. */
  function Answers(h: seq<Event>): seq<nat> {
    if h == [] then [] else (if h[0].Begin? then [h[0].id] else []) + Answers(h[1..])
  }

  /** The id that the begin number `n` (from 0) asks for. */
  function Turned(n: nat): nat {
    (n + 1) % LAST_ID + 1
  }

  lemma {:induction false} AnswersAppend(a: seq<Event>, b: seq<Event>)
    ensures Answers(a + b) == Answers(a) + Answers(b)
  {
    if a == [] {
      assert a + b == b;
    } else {
      assert (a + b)[0] == a[0] && (a + b)[1..] == a[1..] + b;
      AnswersAppend(a[1..], b);
      Associate(if a[0].Begin? then [a[0].id] else [], Answers(a[1..]), Answers(b));
    }
  }

  lemma {:induction false} ExpiredAnswersNothing(table: seq<Entry>, t: int)
    ensures Answers(Expired(table, t)) == []
  {
    if table != [] {
      ExpiredAnswersNothing(table[1..], t);
      AnswersAppend(EventOf(table[0], t), Expired(table[1..], t));
      assert [Abort(table[0].key)][1..] == [];
    }
  }

  lemma TurnAnswers(st: State, w: Wake)
    requires Good(st)
    ensures var (next, events) := Turn(st, w);
            if w.req.Some? && w.req.value.BeginTrans?
            then Answers(events) == [NextAnswer(st)] && next.count == NextCount(st.count)
            else Answers(events) == [] && next.count == st.count
  {
    var (mid, events) := Handled(st, w);
    AnswersAppend(events, Expired(mid.table, w.t));
    ExpiredAnswersNothing(mid.table, w.t);
    assert events != [] ==> events[1..] == [];
  }

  lemma NextTurned(n: nat)
    ensures NextCount(n % LAST_ID + 1) == Turned(n)
  {}

  lemma {:induction false} AnsweredBefore(h: seq<Event>, id: nat)
    requires Of(h, id) != [] && Of(h, id)[0].Begin?
    ensures id in Answers(h)
  {
    if h[0].id != id {
      AnsweredBefore(h[1..], id);
    }
  }

  ghost predicate AnsweredInTurn(ids: seq<nat>) {
    forall k :: 0 <= k < |ids| ==> (ids[k] == Turned(k) || (ids[k] == 0 && k >= LAST_ID))
  }

  ghost predicate InTurn(st: State, h: seq<Event>) {
    st.count == |Answers(h)| % LAST_ID + 1 && AnsweredInTurn(Answers(h))
  }

  lemma OneMoreAnswer(ids: seq<nat>, id: nat)
    requires AnsweredInTurn(ids) && (id == Turned(|ids|) || (id == 0 && |ids| >= LAST_ID))
    ensures AnsweredInTurn(ids + [id])
  {}

  lemma {:induction false} TurnKeepsTurn(st: State, w: Wake, h: seq<Event>)
    requires Good(st) && InTurn(st, h) && (|Answers(h)| < LAST_ID ==> NextAnswer(st) != 0)
    ensures InTurn(Turn(st, w).0, h + Turn(st, w).1)
  {
    TurnAnswers(st, w);
    AnswersAppend(h, Turn(st, w).1);
    if w.req.Some? && w.req.value.BeginTrans? {
      NextTurned(|Answers(h)|);
      OneMoreAnswer(Answers(h), NextAnswer(st));
    } else {
      assert Answers(h) + [] == Answers(h);
    }
  }

  /** Begin number `n` of a run asks for the id `(n + 1) mod 9999 + 1`, and is refused exactly when
      that id is live; none of the first 9999 begins of a run is refused. */
  lemma {:induction false} EveryRunAnswersInTurn(wakes: seq<Wake>)
    ensures var (st, events) := Run(INITIAL, wakes);
            var n := |Answers(events)|;
            && st.count == n % 9999 + 1
            && AnsweredInTurn(Answers(events))
            && NextAnswer(st) == (if Live(st.table, Turned(n)) then 0 else Turned(n))
            && (n < LAST_ID ==> NextAnswer(st) != 0)
    decreases |wakes|
  {
    if wakes == [] {
      assert Answers([]) == [] && 0 % LAST_ID == 0;
    } else {
      var (before, earlier) := Run(INITIAL, wakes[..|wakes| - 1]);
      EveryRunAnswersInTurn(wakes[..|wakes| - 1]);
      EveryRunAlternates(wakes[..|wakes| - 1], 1);
      TurnKeepsTurn(before, wakes[|wakes| - 1], earlier);
    }
    NextTurned(|Answers(Run(INITIAL, wakes).1)|);
    FirstLapIsFree(wakes);
  }

  lemma {:induction false} FirstLapIsFree(wakes: seq<Wake>)
    requires var (st, events) := Run(INITIAL, wakes);
             AnsweredInTurn(Answers(events)) && st.count == |Answers(events)| % LAST_ID + 1
    ensures var (st, events) := Run(INITIAL, wakes);
            |Answers(events)| < LAST_ID ==> NextAnswer(st) != 0
  {
    var (st, events) := Run(INITIAL, wakes);
    var n := |Answers(events)|;
    NextTurned(n);
    if Live(st.table, Turned(n)) && n < LAST_ID {
      EveryRunAlternates(wakes, Turned(n));
      AnsweredBefore(events, Turned(n));
      var k :| 0 <= k < n && Answers(events)[k] == Turned(n);
      TurnedDiffers(k, n);
      assert false;
    }
  }

  lemma TurnedDiffers(i: nat, j: nat)
    requires i < j < i + LAST_ID
    ensures Turned(i) != Turned(j)
  {
    var a, b := (i + 1) / LAST_ID, (j + 1) / LAST_ID;
    assert i + 1 == a * LAST_ID + (i + 1) % LAST_ID;
    assert j + 1 == b * LAST_ID + (j + 1) % LAST_ID;
  }

  /** An id is not given out again before 9998 other begins, even if its transaction has ended. */
  lemma {:induction false} NoEarlyReuse(wakes: seq<Wake>, i: nat, j: nat)
    requires i < j < |Answers(Run(INITIAL, wakes).1)| && j - i < 9999
    requires Answers(Run(INITIAL, wakes).1)[i] != 0
    ensures Answers(Run(INITIAL, wakes).1)[i] != Answers(Run(INITIAL, wakes).1)[j]
  {
    EveryRunAnswersInTurn(wakes);
    TurnedDiffers(i, j);
  }
}
