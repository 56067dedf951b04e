/** What the timer server promises over every run: which timers fire, when, how often, and what they send. */
module TimerTheorems {
  import opened Common
  import opened IdAllocator
  import opened Strings
  import opened Timers
  import opened TimerServer

  // ----- What every run keeps -----

  ghost predicate NothingDueAt(list: seq<Timer>, t: int) {
    forall j :: 0 <= j < |list| ==> list[j].endT > t
  }

  /** In every state a run reaches, ids are distinct and between 1 and 8192, and nothing is overdue
      at the time of the last wake. */
  lemma {:induction false} EveryRunIsGood(st: State, wakes: seq<Wake>)
    requires Good(st)
    ensures Good(Run(st, wakes))
    ensures wakes != [] ==> NothingDueAt(Run(st, wakes).list, wakes[|wakes| - 1].t)
    decreases |wakes|
  {
    if wakes == [] {
    } else {
      TurnKeepsGood(st, wakes[0]);
      EveryRunIsGood(Turn(st, wakes[0]), wakes[1..]);
      NothingOverdueIsLeft(Handled(st, wakes[0]).list, wakes[0].t);
      if |wakes| == 1 {
        assert Run(Turn(st, wakes[0]), wakes[1..]) == Turn(st, wakes[0]);
        assert Run(st, wakes).list == Drained(Handled(st, wakes[0]).list, wakes[0].t);
      } else {
        assert |wakes[1..]| == |wakes| - 1 && wakes[1..][|wakes[1..]| - 1] == wakes[|wakes| - 1];
        assert Run(st, wakes) == Run(Turn(st, wakes[0]), wakes[1..]);
      }
    }
  }

  /** How often an id fires in a run. */
  function FiringsInRun(st: State, wakes: seq<Wake>, id: nat): nat
    decreases |wakes|
  {
    if wakes == [] then 0
    else FiringsInTurn(st, wakes[0], id) + FiringsInRun(Turn(st, wakes[0]), wakes[1..], id)
  }

  /** The wake does not kill this timer or end its transaction. */
  ghost predicate Leaves(w: Wake, x: Timer) {
    match w.req
    case Some(KillTimer(id)) => id != x.id
    case Some(EndTrans(trans)) => trans == 0 || trans != x.trans
    case _ => true
  }

  lemma LeftTimerStays(st: State, w: Wake, x: Timer)
    requires x in st.list && Leaves(w, x)
    ensures x in Handled(st, w).list
  {
    match w.req
    case None =>
    case Some(SetTimer(_, _, _, _, _, _, _)) =>
    case Some(KillTimer(id)) => StaysWithout(st.list, IndexOfTimer(st.list, id), x);
    case Some(EndTrans(trans)) => StaysWithout(st.list, First(st.list, OfTrans(trans)), x);
  }

  lemma StaysWithout(list: seq<Timer>, k: nat, x: Timer)
    requires x in list && k <= |list|
    ensures k < |list| && list[k] != x ==> x in list[..k] + list[k + 1..]
  {
    if k < |list| {
      assert list == list[..k] + [list[k]] + list[k + 1..];
    }
  }

  lemma {:induction false} RepeaterInDrain(list: seq<Timer>, t: int, x: Timer)
    requires DistinctTimers(list) && x in list && x.restart > 0
    ensures multiset(Fired(list, t))[x.id] == Firings(x.endT, x.restart, t)
    ensures x.(endT := Deadline(x.endT, x.restart, t)) in Drained(list, t)
  {
    var k :| 0 <= k < |list| && list[k] == x;
    FiringCount(list, t, k);
    StaysInDrained(list, t, k);
    assert x.(endT := Deadline(x.endT, x.restart, t)) in After(x, t);
  }

  /** How often an id fires in one turn. */
  function FiringsInTurn(st: State, w: Wake, id: nat): nat {
    multiset(Fired(Handled(st, w).list, w.t))[id]
  }

  lemma RepeaterOverTurn(st: State, w: Wake, x: Timer)
    requires Good(st) && x in st.list && x.restart > 0 && Leaves(w, x)
    ensures Good(Turn(st, w))
    ensures FiringsInTurn(st, w, x.id) == Firings(x.endT, x.restart, w.t)
    ensures x.(endT := Deadline(x.endT, x.restart, w.t)) in Turn(st, w).list
  {
    LeftTimerStays(st, w, x);
    TurnKeepsGood(st, w);
    RepeaterInDrain(Handled(st, w).list, w.t, x);
  }

  ghost predicate InOrder(wakes: seq<Wake>) {
    forall i, j :: 0 <= i < j < |wakes| ==> wakes[i].t <= wakes[j].t
  }

  ghost predicate AllLeave(wakes: seq<Wake>, x: Timer) {
    forall i :: 0 <= i < |wakes| ==> Leaves(wakes[i], x)
  }

  lemma RestLeaves(wakes: seq<Wake>, x: Timer)
    requires AllLeave(wakes, x) && wakes != []
    ensures Leaves(wakes[0], x) && AllLeave(wakes[1..], x)
  {}

  /** A repeating timer that nobody kills has fired, after any run, exactly once for each of its
      deadlines up to the last wake, however rarely or irregularly the server woke. */
  lemma {:induction false} RepeaterOverRun(st: State, wakes: seq<Wake>, x: Timer)
    requires Good(st) && x in st.list && x.restart > 0 && wakes != [] && InOrder(wakes) && AllLeave(wakes, x)
    ensures var last := wakes[|wakes| - 1].t;
            && FiringsInRun(st, wakes, x.id) == Firings(x.endT, x.restart, last)
            && x.(endT := Deadline(x.endT, x.restart, last)) in Run(st, wakes).list
    decreases |wakes|
  {
    var w, rest := wakes[0], wakes[1..];
    var x' := x.(endT := Deadline(x.endT, x.restart, w.t));
    RestLeaves(wakes, x);
    RepeaterOverTurn(st, w, x);
    if rest == [] {
      assert FiringsInRun(Turn(st, w), rest, x.id) == 0 && Run(Turn(st, w), rest) == Turn(st, w);
    } else {
      LastOfRest(wakes);
      StillLeft(rest, x, x');
      RepeaterOverRun(Turn(st, w), rest, x');
      RepeaterTwice(x.endT, x.restart, w.t, wakes[|wakes| - 1].t);
    }
  }

  lemma StillLeft(wakes: seq<Wake>, x: Timer, x': Timer)
    requires AllLeave(wakes, x) && x'.id == x.id && x'.trans == x.trans
    ensures AllLeave(wakes, x')
  {}

  lemma LastOfRest(wakes: seq<Wake>)
    requires |wakes| > 1 && InOrder(wakes)
    ensures wakes[1..][|wakes[1..]| - 1] == wakes[|wakes| - 1]
    ensures InOrder(wakes[1..]) && wakes[0].t <= wakes[|wakes| - 1].t
  {}

  lemma OneShotOverTurn(st: State, w: Wake, x: Timer)
    requires Good(st) && x in st.list && x.restart == 0 && Leaves(w, x)
    ensures Good(Turn(st, w))
    ensures FiringsInTurn(st, w, x.id) == if x.endT <= w.t then 1 else 0
    ensures if x.endT <= w.t then forall y :: y in Turn(st, w).list ==> y.id != x.id else x in Turn(st, w).list
  {
    var list := Handled(st, w).list;
    LeftTimerStays(st, w, x);
    TurnKeepsGood(st, w);
    var k :| 0 <= k < |list| && list[k] == x;
    EachTimerFires(list, w.t, k);
    StaysInDrained(list, w.t, k);
  }

  ghost predicate NeverDue(x: Timer, wakes: seq<Wake>) {
    forall k :: 0 <= k < |wakes| ==> x.endT > wakes[k].t
  }

  /** In the table until a wake at or after its deadline; at the first such wake it fires once and goes. */
  ghost predicate FiresWhenDue(st: State, wakes: seq<Wake>, x: Timer) {
    && (x in Run(st, wakes).list <==> NeverDue(x, wakes))
    && (NeverDue(x, wakes) ==> FiringsInRun(st, wakes, x.id) == 0)
    && (wakes != [] && NeverDue(x, wakes[..|wakes| - 1]) && !NeverDue(x, wakes) ==>
          FiringsInRun(st, wakes, x.id) == 1 && forall y :: y in Run(st, wakes).list ==> y.id != x.id)
  }

  /** A timer that does not repeat and that nobody kills stays, without firing, until the first wake at
      or after its deadline, where it fires exactly once and goes. */
  lemma {:induction false} OneShotOverRun(st: State, wakes: seq<Wake>, x: Timer)
    requires Good(st) && x in st.list && x.restart == 0 && InOrder(wakes) && AllLeave(wakes, x)
    ensures FiresWhenDue(st, wakes, x)
    decreases |wakes|
  {
    if wakes == [] {
    } else {
      var w, rest := wakes[0], wakes[1..];
      RestLeaves(wakes, x);
      OneShotOverTurn(st, w, x);
      if x.endT > w.t {
        RestInOrder(wakes);
        OneShotOverRun(Turn(st, w), rest, x);
        DueInRest(st, wakes, x);
      } else {
        EveryRunIsGood(st, wakes);
        DueAtFirst(st, wakes, x);
      }
    }
  }

  lemma RestInOrder(wakes: seq<Wake>)
    requires InOrder(wakes) && wakes != []
    ensures InOrder(wakes[1..])
  {}

  lemma {:induction false} DueInRest(st: State, wakes: seq<Wake>, x: Timer)
    requires wakes != [] && x.endT > wakes[0].t && FiringsInTurn(st, wakes[0], x.id) == 0
    requires x in Turn(st, wakes[0]).list && FiresWhenDue(Turn(st, wakes[0]), wakes[1..], x)
    ensures FiresWhenDue(st, wakes, x)
  {
    DueLater(x, wakes);
    if |wakes| == 1 {
      assert NeverDue(x, wakes[1..]);
    }
  }

  lemma DueLater(x: Timer, wakes: seq<Wake>)
    requires wakes != [] && x.endT > wakes[0].t
    ensures NeverDue(x, wakes) <==> NeverDue(x, wakes[1..])
    ensures |wakes| > 1 ==> (NeverDue(x, wakes[..|wakes| - 1]) <==> NeverDue(x, wakes[1..][..|wakes[1..]| - 1]))
  {
    assert forall k :: 0 < k < |wakes| ==> wakes[k] == wakes[1..][k - 1];
    if |wakes| > 1 {
      var a, b := wakes[..|wakes| - 1], wakes[1..][..|wakes[1..]| - 1];
      assert forall k :: 0 < k < |a| ==> a[k] == b[k - 1];
      assert forall k :: 0 <= k < |b| ==> b[k] == a[k + 1];
    }
  }

  lemma {:induction false} DueAtFirst(st: State, wakes: seq<Wake>, x: Timer)
    requires wakes != [] && x.endT <= wakes[0].t && InOrder(wakes)
    requires NothingDueAt(Run(st, wakes).list, wakes[|wakes| - 1].t)
    requires FiringsInTurn(st, wakes[0], x.id) == 1
    requires forall y :: y in Turn(st, wakes[0]).list ==> y.id != x.id
    ensures FiresWhenDue(st, wakes, x)
  {
    var init := wakes[..|wakes| - 1];
    assert wakes[0].t <= wakes[|wakes| - 1].t;
    assert forall k :: 0 <= k < |init| ==> init[k] == wakes[k];
    if NeverDue(x, init) {
      assert |init| == 0 && wakes[1..] == [];
      assert FiringsInRun(Turn(st, wakes[0]), [], x.id) == 0 && Run(Turn(st, wakes[0]), []) == Turn(st, wakes[0]);
    }
  }

  // ----- Runs in which the server wakes in time -----

  /** A wake at `u` does not come after the wait that the drain at `t`, which left this table, asked for. */
  ghost predicate InTime(list: seq<Timer>, t: int, u: int, maxWait: int) {
    RestOf(list, t, maxWait) == -1 || 100 * (u - t) <= RestOf(list, t, maxWait)
  }

  ghost predicate Prompt(st: State, wakes: seq<Wake>, maxWait: int)
    decreases |wakes|
  {
    |wakes| < 2 ||
    (InTime(Turn(st, wakes[0]).list, wakes[0].t, wakes[1].t, maxWait) && Prompt(Turn(st, wakes[0]), wakes[1..], maxWait))
  }

  /** The timer was set by this very request, for a moment that had already come. */
  ghost predicate SetForThePast(st: State, w: Wake, x: Timer) {
    x !in st.list && w.req.Some? && w.req.value.SetTimer? && w.req.value.at != 0 && x.endT == w.req.value.at
  }

  /** What fires in this turn fires once, at the second of its deadline. */
  ghost predicate OnTime(st: State, w: Wake) {
    forall x :: x in Handled(st, w).list && x.endT <= w.t ==>
      SetForThePast(st, w, x) || (x.endT == w.t && FiringsOf(x, w.t) == 1)
  }

  ghost predicate AllOnTime(st: State, wakes: seq<Wake>)
    decreases |wakes|
  {
    wakes == [] || (OnTime(st, wakes[0]) && AllOnTime(Turn(st, wakes[0]), wakes[1..]))
  }

  lemma HandledAdds(st: State, w: Wake, x: Timer)
    requires x in Handled(st, w).list && x !in st.list
    ensures x.endT > w.t || SetForThePast(st, w, x)
  {
    match w.req
    case Some(SetTimer(_, _, _, _, _, _, _)) =>
    case Some(KillTimer(id)) =>
    case Some(EndTrans(trans)) =>
  }

  lemma FiresOnce(x: Timer)
    ensures FiringsOf(x, x.endT) == 1
  {
    assert x.restart > 0 ==> Firings(x.endT + x.restart, x.restart, x.endT) == 0;
  }

  lemma DueIsOnTime(st: State, w: Wake)
    requires forall x :: x in st.list ==> x.endT >= w.t
    ensures OnTime(st, w)
  {
    forall x | x in Handled(st, w).list && x.endT <= w.t
      ensures SetForThePast(st, w, x) || (x.endT == w.t && FiringsOf(x, w.t) == 1)
    {
      if x in st.list {
        FiresOnce(x);
      } else {
        HandledAdds(st, w, x);
      }
    }
  }

  lemma {:induction false} NextIsOnTime(list: seq<Timer>, t: int, u: int, maxWait: int)
    requires InTime(Drained(list, t), t, u, maxWait)
    ensures forall x :: x in Drained(list, t) ==> x.endT >= u
  {
    RestAfterDrain(list, t, maxWait);
  }

  lemma {:induction false} PromptStaysOnTime(st: State, wakes: seq<Wake>, maxWait: int)
    requires Prompt(st, wakes, maxWait) && (wakes != [] ==> OnTime(st, wakes[0]))
    ensures AllOnTime(st, wakes)
    decreases |wakes|
  {
    if |wakes| < 2 {
      assert wakes != [] ==> wakes[1..] == [];
    } else {
      var next := Turn(st, wakes[0]);
      NextIsOnTime(Handled(st, wakes[0]).list, wakes[0].t, wakes[1].t, maxWait);
      DueIsOnTime(next, wakes[1]);
      PromptStaysOnTime(next, wakes[1..], maxWait);
    }
  }

  /** In every run of a new server whose wakes come no later than it asked for, every timer fires at the
      second of its deadline, each deadline in its own turn. */
  lemma {:induction false} PromptRunsFireOnTime(st: State, wakes: seq<Wake>, maxWait: int)
    requires st.list == [] && Prompt(st, wakes, maxWait)
    ensures AllOnTime(st, wakes)
  {
    if wakes != [] {
      DueIsOnTime(st, wakes[0]);
    }
    PromptStaysOnTime(st, wakes, maxWait);
  }

  // ----- What is sent for one timer -----

  /** The firings of one id among these, or those of all others. */
  function Of(ids: seq<nat>, id: nat, mine: bool): seq<nat> {
    if ids == [] then [] else (if (ids[0] == id) == mine then [ids[0]] else []) + Of(ids[1..], id, mine)
  }

  /** What one turn sends when this id fires, or when any other does. */
  function SentForInTurn(st: State, w: Wake, id: nat, mine: bool): seq<Emission> {
    EmittedBy(Handled(st, w).list, Of(Fired(Handled(st, w).list, w.t), id, mine))
  }

  function SentFor(st: State, wakes: seq<Wake>, id: nat, mine: bool): seq<Emission>
    decreases |wakes|
  {
    if wakes == [] then [] else SentForInTurn(st, wakes[0], id, mine) + SentFor(Turn(st, wakes[0]), wakes[1..], id, mine)
  }

  lemma {:induction false} EmittedInParts(list: seq<Timer>, ids: seq<nat>, id: nat)
    ensures multiset(EmittedBy(list, ids)) ==
            multiset(EmittedBy(list, Of(ids, id, true))) + multiset(EmittedBy(list, Of(ids, id, false)))
  {
    if ids != [] {
      EmittedInParts(list, ids[1..], id);
      EmittedInFront(list, ids[0], Of(ids[1..], id, ids[0] == id));
      var other := Of(ids[1..], id, ids[0] != id);
      assert [] + other == other;
    }
  }

  lemma {:induction false} EmittedInFront(list: seq<Timer>, id: nat, ids: seq<nat>)
    ensures EmittedBy(list, [id] + ids) == EmitById(list, id) + EmittedBy(list, ids)
  {
    assert ([id] + ids)[1..] == ids;
  }

  /** Everything that a run sends is sent for this id or for another. */
  lemma {:induction false} SentInParts(st: State, wakes: seq<Wake>, id: nat)
    ensures multiset(SentInRun(st, wakes)) == multiset(SentFor(st, wakes, id, true)) + multiset(SentFor(st, wakes, id, false))
    decreases |wakes|
  {
    if wakes != [] {
      var list := Handled(st, wakes[0]).list;
      EmittedInParts(list, Fired(list, wakes[0].t), id);
      SentInParts(Turn(st, wakes[0]), wakes[1..], id);
    }
  }

  /** `n` times the same. */
  function Times(s: seq<Emission>, n: nat): seq<Emission> {
    if n == 0 then [] else s + Times(s, n - 1)
  }

  lemma {:induction false} TimesAdd(s: seq<Emission>, m: nat, n: nat)
    ensures Times(s, m) + Times(s, n) == Times(s, m + n)
  {
    if m == 0 {
      assert [] + Times(s, n) == Times(s, n);
    } else {
      TimesAdd(s, m - 1, n);
      Associate(s, Times(s, m - 1), Times(s, n));
    }
  }

  /** The firings of one id send the same each time. */
  ghost predicate SendsTheSame(list: seq<Timer>, ids: seq<nat>, id: nat) {
    EmittedBy(list, Of(ids, id, true)) == Times(EmitById(list, id), multiset(ids)[id])
  }

  lemma {:induction false} EmittedByOne(list: seq<Timer>, ids: seq<nat>, id: nat)
    ensures SendsTheSame(list, ids, id)
  {
    if ids != [] {
      EmittedByOne(list, ids[1..], id);
      OneMoreFiring(list, ids[0], ids[1..], id);
      assert ids == [ids[0]] + ids[1..];
    }
  }

  lemma {:induction false} OneMoreFiring(list: seq<Timer>, first: nat, rest: seq<nat>, id: nat)
    requires SendsTheSame(list, rest, id)
    ensures SendsTheSame(list, [first] + rest, id)
  {
    OfInFront(first, rest, id);
    CountInFrontOf(first, rest, id);
    if first == id {
      EmittedInFront(list, id, Of(rest, id, true));
      OnceMore(EmitById(list, id), EmittedBy(list, Of(rest, id, true)), multiset(rest)[id], multiset([first] + rest)[id]);
    }
  }

  lemma CountInFrontOf(first: nat, rest: seq<nat>, id: nat)
    ensures multiset([first] + rest)[id] == if first == id then 1 + multiset(rest)[id] else multiset(rest)[id]
  {
    CountInTwo([first], rest, id);
  }

  lemma {:induction false} OnceMore(s: seq<Emission>, rest: seq<Emission>, n: nat, m: nat)
    requires rest == Times(s, n) && m == 1 + n
    ensures s + rest == Times(s, m)
  {}

  lemma {:induction false} OfInFront(first: nat, rest: seq<nat>, id: nat)
    ensures Of([first] + rest, id, true) == if first == id then [id] + Of(rest, id, true) else Of(rest, id, true)
  {
    assert ([first] + rest)[1..] == rest;
    assert [] + Of(rest, id, true) == Of(rest, id, true);
  }

  /** Each firing of a timer sends what the timer holds. */
  lemma {:induction false} TurnSends(st: State, w: Wake, x: Timer)
    requires Good(Handled(st, w)) && x in Handled(st, w).list
    ensures SentForInTurn(st, w, x.id, true) == Times(Emit(x.servicio, x.tipo, x.msg), FiringsInTurn(st, w, x.id))
  {
    var list := Handled(st, w).list;
    TimerIndexUnique(list, x);
    EmittedByOne(list, Fired(list, w.t), x.id);
  }

  /** Every firing of the id in a run sends this job. */
  ghost predicate Sends(st: State, wakes: seq<Wake>, id: nat, job: seq<Emission>) {
    SentFor(st, wakes, id, true) == Times(job, FiringsInRun(st, wakes, id))
  }

  lemma {:induction false} FirstTurnSends(st: State, wakes: seq<Wake>, id: nat, job: seq<Emission>)
    requires wakes != [] && SentForInTurn(st, wakes[0], id, true) == Times(job, FiringsInTurn(st, wakes[0], id))
    requires Sends(Turn(st, wakes[0]), wakes[1..], id, job)
    ensures Sends(st, wakes, id, job)
  {
    FirstTurnFires(st, wakes, id);
    JoinTimes(job, SentForInTurn(st, wakes[0], id, true), FiringsInTurn(st, wakes[0], id),
              SentFor(Turn(st, wakes[0]), wakes[1..], id, true), FiringsInRun(Turn(st, wakes[0]), wakes[1..], id),
              SentFor(st, wakes, id, true), FiringsInRun(st, wakes, id));
  }

  lemma {:induction false} FirstTurnFires(st: State, wakes: seq<Wake>, id: nat)
    requires wakes != []
    ensures FiringsInRun(st, wakes, id) == FiringsInTurn(st, wakes[0], id) + FiringsInRun(Turn(st, wakes[0]), wakes[1..], id)
    ensures SentFor(st, wakes, id, true) == SentForInTurn(st, wakes[0], id, true) + SentFor(Turn(st, wakes[0]), wakes[1..], id, true)
  {}

  lemma {:induction false} JoinTimes(job: seq<Emission>, a: seq<Emission>, m: nat, b: seq<Emission>, n: nat, c: seq<Emission>, k: nat)
    requires a == Times(job, m) && b == Times(job, n) && c == a + b && k == m + n
    ensures c == Times(job, k)
  {
    TimesAdd(job, m, n);
  }

  lemma {:induction false} LeftTimerSends(st: State, w: Wake, x: Timer)
    requires Good(st) && x in st.list && Leaves(w, x)
    ensures SentForInTurn(st, w, x.id, true) == Times(Emit(x.servicio, x.tipo, x.msg), FiringsInTurn(st, w, x.id))
  {
    LeftTimerStays(st, w, x);
    TurnKeepsGood(st, w);
    TurnSends(st, w, x);
  }

  lemma {:induction false} RepeaterSends(st: State, wakes: seq<Wake>, x: Timer)
    requires Good(st) && x in st.list && x.restart > 0 && AllLeave(wakes, x)
    ensures Sends(st, wakes, x.id, Emit(x.servicio, x.tipo, x.msg))
    decreases |wakes|
  {
    if wakes != [] {
      var x' := x.(endT := Deadline(x.endT, x.restart, wakes[0].t));
      RestLeaves(wakes, x);
      RepeaterOverTurn(st, wakes[0], x);
      LeftTimerSends(st, wakes[0], x);
      StillLeft(wakes[1..], x, x');
      RepeaterSends(Turn(st, wakes[0]), wakes[1..], x');
      FirstTurnSends(st, wakes, x.id, Emit(x.servicio, x.tipo, x.msg));
    }
  }

  lemma {:induction false} OneShotSends(st: State, wakes: seq<Wake>, x: Timer)
    requires Good(st) && x in st.list && x.restart == 0 && AllLeave(wakes, x)
    requires wakes != [] ==> NeverDue(x, wakes[..|wakes| - 1])
    ensures Sends(st, wakes, x.id, Emit(x.servicio, x.tipo, x.msg))
    decreases |wakes|
  {
    if wakes != [] {
      RestLeaves(wakes, x);
      LeftTimerSends(st, wakes[0], x);
      if |wakes| == 1 {
        assert Sends(Turn(st, wakes[0]), wakes[1..], x.id, Emit(x.servicio, x.tipo, x.msg));
      } else {
        assert wakes[..|wakes| - 1][0] == wakes[0];
        OneShotOverTurn(st, wakes[0], x);
        DueLater(x, wakes);
        OneShotSends(Turn(st, wakes[0]), wakes[1..], x);
      }
      FirstTurnSends(st, wakes, x.id, Emit(x.servicio, x.tipo, x.msg));
    }
  }

  // ----- From the request to the messages sent -----

  /** A request to set a timer is answered with an id exactly when it gives a delay or a moment, but not both, and an
      id can be found; that id is then the last one handed out, and one timer is added at the end. Without an id the
      search starts over. */
  lemma SetIsAnswered(st: State, t: int, req: Request)
    requires Good(st) && req.SetTimer?
    ensures var (next, reply) := Handle(st, t, req);
            var id := NextId(TimerIds(st.list), st.lastId);
            if (req.delay == 0) == (req.at == 0) then reply == Failed && next == st
            else if id == 0 then reply == Failed && next == State(st.list, 0)
            else reply == TimerId(id) && next.lastId == id && |next.list| == |st.list| + 1 && next.list[..|st.list|] == st.list
  {}

  /** The list without its timer of this id. */
  ghost predicate IsWithoutId(list: seq<Timer>, id: nat, next: seq<Timer>) {
    exists k :: 0 <= k < |list| && list[k].id == id && next == list[..k] + list[k + 1..]
  }

  /** The list without the first timer of this transaction. */
  ghost predicate IsWithoutFirst(list: seq<Timer>, trans: nat, next: seq<Timer>) {
    exists k :: 0 <= k < |list| && list[k].trans == trans && (forall j :: 0 <= j < k ==> list[j].trans != trans)
      && next == list[..k] + list[k + 1..]
  }

  /** Killing a timer takes exactly that timer out, and fails exactly when there is none of that id. */
  lemma KillIsExact(st: State, t: int, id: nat)
    requires Good(st)
    ensures var (next, reply) := Handle(st, t, KillTimer(id));
            if exists x :: x in st.list && x.id == id then
              reply == Done && next.lastId == st.lastId && IsWithoutId(st.list, id, next.list)
            else reply == Failed && next == st
  {
    var i := IndexOfTimer(st.list, id);
    assert i < |st.list| ==> st.list[i] in st.list;
  }

  ghost predicate HasTimerOf(list: seq<Timer>, trans: nat) {
    exists k :: 0 <= k < |list| && list[k].trans == trans
  }

  /** The end of a transaction takes exactly its first timer out, and fails exactly when it has none. */
  lemma EndIsExact(st: State, t: int, trans: nat)
    ensures var (next, reply) := Handle(st, t, EndTrans(trans));
            if trans != 0 && HasTimerOf(st.list, trans) then
              reply == Done && next.lastId == st.lastId && IsWithoutFirst(st.list, trans, next.list)
            else reply == Failed && next == st
  {
    FirstOfTrans(st.list, trans);
  }

  lemma {:induction false} FirstOfTrans(list: seq<Timer>, trans: nat)
    ensures var i := First(list, OfTrans(trans));
            if HasTimerOf(list, trans) then i < |list| && IsWithoutFirst(list, trans, list[..i] + list[i + 1..])
            else i == |list|
  {
    var i := First(list, OfTrans(trans));
    assert forall j :: 0 <= j < i ==> !OfTrans(trans)(list[j]);
    if i < |list| {
      assert list[i].trans == trans;
      TakenOut(list, i, trans, list[..i] + list[i + 1..]);
    }
  }

  lemma TakenOut(list: seq<Timer>, i: nat, trans: nat, next: seq<Timer>)
    requires i < |list| && list[i].trans == trans && (forall j :: 0 <= j < i ==> list[j].trans != trans)
    requires next == list[..i] + list[i + 1..]
    ensures HasTimerOf(list, trans) && IsWithoutFirst(list, trans, next)
  {}

  /** The wake sets this timer and answers with this id. */
  ghost predicate Sets(st: State, w: Wake, req: Request, id: nat) {
    w.req == Some(req) && req.SetTimer? && Handle(st, w.t, req).1 == TimerId(id)
  }

  /** Nobody kills the timer of this id or ends its transaction. */
  ghost predicate Untouched(wakes: seq<Wake>, id: nat, trans: nat) {
    forall k :: 0 <= k < |wakes| ==>
      match wakes[k].req
      case Some(KillTimer(killed)) => killed != id
      case Some(EndTrans(ended)) => ended == 0 || ended != trans
      case _ => true
  }

  /** What a timer should send: a message or a notification to its service, whose name is cut; nothing for any
      other kind. */
  function Announcement(req: Request): seq<Emission>
    requires req.SetTimer?
  {
    if req.modo == 'M' then [Posted(Cut(req.servicio, 32), req.msg)]
    else if req.modo == 'N' then [Notified(Cut(req.servicio, 32), req.msg)]
    else []
  }

  /** When a timer that is set at `t` is first due: after the delay, or at the moment. */
  function DueAt(t: int, req: Request): int
    requires req.SetTimer?
  {
    if req.delay != 0 then t + req.delay else req.at
  }

  /** The run from inside its first turn, when its request has been handled. */
  function Inside(wakes: seq<Wake>): seq<Wake>
    requires wakes != []
  {
    [Wake(wakes[0].t, None)] + wakes[1..]
  }

  /** What has come of an id in a run: how often it fired, what that sent, and the table that is left. */
  datatype Outcome = Outcome(firings: nat, sent: seq<Emission>, list: seq<Timer>)

  function OutcomeOf(st: State, wakes: seq<Wake>, id: nat): Outcome {
    Outcome(FiringsInRun(st, wakes, id), SentFor(st, wakes, id, true), Run(st, wakes).list)
  }

  lemma {:induction false} RunFromInside(st: State, wakes: seq<Wake>, id: nat)
    requires wakes != []
    ensures OutcomeOf(Handled(st, wakes[0]), Inside(wakes), id) == OutcomeOf(st, wakes, id)
  {
    var mid, rest := Handled(st, wakes[0]), Inside(wakes);
    assert rest[1..] == wakes[1..] && Handled(mid, rest[0]) == mid && Turn(mid, rest[0]) == Turn(st, wakes[0]);
  }

  /** The two runs end at the same times. */
  ghost predicate SameEnd(a: seq<Wake>, b: seq<Wake>) {
    && |a| == |b| > 0 && a[|a| - 1].t == b[|b| - 1].t
    && (|a| > 1 ==> a[|a| - 2].t == b[|b| - 2].t)
  }

  lemma TimerIsSet(st: State, w: Wake, req: Request, id: nat) returns (x: Timer)
    requires Good(st) && Sets(st, w, req, id)
    ensures x in Handled(st, w).list && x.id == id && x.trans == req.trans
    ensures x.endT == DueAt(w.t, req)
    ensures x.restart == if req.delay != 0 && req.repeat then req.delay else 0
    ensures Emit(x.servicio, x.tipo, x.msg) == Announcement(req)
  {
    x := NewTimer(req, id, w.t);
    CutTwice(req.servicio, NAME_WIDTH);
    var list := Handled(st, w).list;
    assert list[|list| - 1] == x;
  }

  lemma InsideIsLeft(wakes: seq<Wake>, x: Timer, id: nat, trans: nat)
    requires wakes != [] && InOrder(wakes) && Untouched(wakes[1..], id, trans) && x.id == id && x.trans == trans
    ensures InOrder(Inside(wakes)) && AllLeave(Inside(wakes), x)
    ensures SameEnd(Inside(wakes), wakes)
  {
    assert forall k :: 0 < k < |wakes| ==> Inside(wakes)[k] == wakes[1..][k - 1] == wakes[k];
  }

  /** The state and the run from inside the first turn, and the timer that has just been set. */
  lemma {:induction false} StartInside(st: State, wakes: seq<Wake>, req: Request, id: nat)
    returns (mid: State, rest: seq<Wake>, x: Timer)
    requires Good(st) && wakes != [] && Sets(st, wakes[0], req, id) && InOrder(wakes) && Untouched(wakes[1..], id, req.trans)
    ensures Good(mid) && x in mid.list && x.id == id && OutcomeOf(st, wakes, id) == OutcomeOf(mid, rest, id)
    ensures x.endT == DueAt(wakes[0].t, req)
    ensures x.restart == if req.delay != 0 && req.repeat then req.delay else 0
    ensures Announcement(req) == Emit(x.servicio, x.tipo, x.msg)
    ensures SameEnd(rest, wakes) && InOrder(rest) && AllLeave(rest, x) && wakes[0].t <= wakes[|wakes| - 1].t
  {
    mid, rest := Handled(st, wakes[0]), Inside(wakes);
    x := TimerIsSet(st, wakes[0], req, id);
    TurnKeepsGood(st, wakes[0]);
    RunFromInside(st, wakes, id);
    InsideIsLeft(wakes, x, id, req.trans);
  }

  lemma CutTwice(s: string, n: nat)
    ensures Cut(Cut(s, n), n) == Cut(s, n)
  {}

  /** A timer for this moment at the last wake of a run, if the wake before it was earlier. */
  ghost predicate FiredOnce(due: int, last: int, job: seq<Emission>, id: nat, o: Outcome) {
    if last < due then o.firings == 0 && o.sent == [] && exists x :: x in o.list && x.id == id && x.endT == due
    else o.firings == 1 && o.sent == job && forall x :: x in o.list ==> x.id != id
  }

  /** A timer that does not repeat: after the delay, or at the moment, that its request gave it fires exactly once,
      at the first wake that is not earlier, sends what the request said, and is gone. */
  lemma {:induction false} SetFiresOnce(st: State, wakes: seq<Wake>, req: Request, id: nat)
    requires Good(st) && wakes != [] && Sets(st, wakes[0], req, id) && InOrder(wakes) && Untouched(wakes[1..], id, req.trans)
    requires req.delay == 0 || !req.repeat
    requires |wakes| > 1 ==> wakes[|wakes| - 2].t < DueAt(wakes[0].t, req)
    ensures FiredOnce(DueAt(wakes[0].t, req), wakes[|wakes| - 1].t, Announcement(req), id, OutcomeOf(st, wakes, id))
  {
    var mid, rest, x := StartInside(st, wakes, req, id);
    FiresOnceInside(mid, rest, x, DueAt(wakes[0].t, req), wakes[|wakes| - 1].t, Announcement(req), id, OutcomeOf(st, wakes, id));
  }

  lemma {:induction false} FiresOnceInside(st: State, wakes: seq<Wake>, x: Timer, due: int, last: int, job: seq<Emission>, id: nat,
                                           o: Outcome)
    requires Good(st) && x in st.list && x.restart == 0 && wakes != [] && InOrder(wakes) && AllLeave(wakes, x)
    requires wakes[|wakes| - 1].t == last && (|wakes| > 1 ==> wakes[|wakes| - 2].t < x.endT)
    requires due == x.endT && job == Emit(x.servicio, x.tipo, x.msg) && id == x.id && o == OutcomeOf(st, wakes, id)
    ensures FiredOnce(due, last, job, id, o)
  {
    NotDueBefore(wakes, x);
    OneShotOverRun(st, wakes, x);
    OneShotSends(st, wakes, x);
    OneTime(Emit(x.servicio, x.tipo, x.msg));
  }

  lemma {:induction false} OneTime(job: seq<Emission>)
    ensures Times(job, 1) == job && Times(job, 0) == []
  {
    assert Times(job, 1) == job + Times(job, 0);
  }

  lemma NotDueBefore(wakes: seq<Wake>, x: Timer)
    requires wakes != [] && InOrder(wakes) && (|wakes| > 1 ==> wakes[|wakes| - 2].t < x.endT)
    ensures NeverDue(x, wakes[..|wakes| - 1])
    ensures NeverDue(x, wakes) <==> wakes[|wakes| - 1].t < x.endT
  {
    assert forall k :: 0 <= k < |wakes| - 1 ==> wakes[k].t <= wakes[|wakes| - 2].t;
  }

  /** A timer set at `t` for every `d` seconds, at the last wake of a run. */
  ghost predicate FiredOften(t: int, d: nat, last: int, job: seq<Emission>, id: nat, o: Outcome)
    requires d > 0
  {
    && o.firings == (last - t) / d && o.sent == Times(job, o.firings)
    && exists x :: x in o.list && x.id == id && x.endT == Deadline(t + d, d, last)
  }

  /** A timer that repeats every `delay` seconds has fired once for each of these periods that has passed at the
      last wake, each time with what the request said, and stays with its next deadline. */
  lemma {:induction false} SetRepeats(st: State, wakes: seq<Wake>, req: Request, id: nat)
    requires Good(st) && wakes != [] && Sets(st, wakes[0], req, id) && InOrder(wakes) && Untouched(wakes[1..], id, req.trans)
    requires req.delay != 0 && req.repeat
    ensures FiredOften(wakes[0].t, req.delay, wakes[|wakes| - 1].t, Announcement(req), id, OutcomeOf(st, wakes, id))
  {
    var mid, rest, x := StartInside(st, wakes, req, id);
    RepeatsInside(mid, rest, x, wakes[0].t, req.delay, wakes[|wakes| - 1].t, Announcement(req), id, OutcomeOf(st, wakes, id));
  }

  lemma {:induction false} RepeatsInside(st: State, wakes: seq<Wake>, x: Timer, t: int, d: nat, last: int, job: seq<Emission>, id: nat,
                                         o: Outcome)
    requires Good(st) && x in st.list && wakes != [] && InOrder(wakes) && AllLeave(wakes, x) && wakes[|wakes| - 1].t == last
    requires t + d == x.endT && t <= last && 0 < d == x.restart && job == Emit(x.servicio, x.tipo, x.msg) && id == x.id
    requires o == OutcomeOf(st, wakes, id)
    ensures FiredOften(t, d, last, job, id, o)
  {
    RepeaterOverRun(st, wakes, x);
    RepeaterSends(st, wakes, x);
    PeriodsPassed(t, d, last);
  }

  lemma {:induction false} PeriodsPassed(t: int, d: nat, u: int)
    requires d > 0 && t <= u
    ensures Firings(t + d, d, u) == (u - t) / d
  {
    if t + d > u {
      QuotientUnique(u - t, d, 0, u - t);
    } else {
      RepeaterClosedForm(t + d, d, u);
      var q := (u - (t + d)) / d;
      assert u - t == d * (q + 1) + (u - (t + d)) % d;
      QuotientUnique(u - t, d, q + 1, (u - (t + d)) % d);
    }
  }
}
