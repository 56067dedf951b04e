/** When transactions time out, over every run, and whether the server wakes in time for it. */
module TransactionTimes {
  import opened Common
  import opened Transactions
  import opened TransactionEvents

  // ----- When transactions time out -----

  ghost predicate InOrder(wakes: seq<Wake>) {
    forall i, j :: 0 <= i < j < |wakes| ==> wakes[i].t <= wakes[j].t
  }

  /** The wake does not bring a commit or an abort of this id. */
  ghost predicate Leaves(w: Wake, id: nat) {
    match w.req
    case Some(CommitTrans(ended)) => ended != id
    case Some(AbortTrans(ended)) => ended != id
    case _ => true
  }

  lemma HandledLeaves(st: State, w: Wake, e: Entry)
    requires Good(st) && Leaves(w, e.key)
    ensures e in st.table ==> e in Handled(st, w).0.table && Of(Handled(st, w).1, e.key) == []
    ensures e in Handled(st, w).0.table ==> e in st.table || e.endTime >= w.t
  {
    match w.req
    case Some(BeginTrans(timeout)) => BeginLeaves(st, w.t, timeout, e);
    case Some(CommitTrans(ended)) => EndLeaves(st, ended, Commit(ended), e);
    case Some(AbortTrans(ended)) => EndLeaves(st, ended, Abort(ended), e);
    case None =>
  }

  lemma BeginLeaves(st: State, t: int, timeout: nat, e: Entry)
    requires Good(st)
    ensures var (next, events) := Handle(st, t, BeginTrans(timeout));
            && (e in st.table ==> e in next.table && Of(events, e.key) == [])
            && (e in next.table ==> e in st.table || e.endTime >= t)
  {
    assert Of([Begin(NextAnswer(st))][1..], e.key) == [];
    if e in st.table {
      var k :| 0 <= k < |st.table| && st.table[k] == e;
    }
  }

  lemma EndLeaves(st: State, ended: nat, event: Event, e: Entry)
    requires Good(st) && ended != e.key && event.id == ended
    ensures e in st.table <==> e in End(st, ended, event).0.table
    ensures Of(End(st, ended, event).1, e.key) == []
  {
    var i := IndexOfKey(st.table, ended);
    assert Of([event][1..], e.key) == [];
    if i < |st.table| {
      assert st.table == st.table[..i] + [st.table[i]] + st.table[i + 1..];
    }
  }

  /** A turn that does not end a live transaction on request posts nothing about it if its time has
      not come, and otherwise exactly one abort. */
  lemma TurnLeaves(st: State, w: Wake, e: Entry)
    requires Good(st) && e in st.table && Leaves(w, e.key)
    ensures var (next, events) := Turn(st, w);
            if Overdue(e, w.t) then e !in next.table && Of(events, e.key) == [Abort(e.key)]
            else e in next.table && Of(events, e.key) == []
  {
    var (mid, events) := Handled(st, w);
    HandledLeaves(st, w, e);
    TurnIsGood(st, w);
    var k :| 0 <= k < |mid.table| && mid.table[k] == e;
    assert IndexOfKey(mid.table, e.key) == k;
    DrainAborts(mid, w.t, e.key);
    KeptIsPart(mid.table, w.t);
    OfAppend(events, Expired(mid.table, w.t), e.key);
  }

  lemma GoneStaysGone(st: State, w: Wake, e: Entry)
    requires Good(st) && e !in st.table && Overdue(e, w.t) && Leaves(w, e.key)
    ensures e !in Turn(st, w).0.table
  {
    KeptIsPart(Handled(st, w).0.table, w.t);
  }

  ghost predicate NeverDue(e: Entry, wakes: seq<Wake>) {
    forall k :: 0 <= k < |wakes| ==> !Overdue(e, wakes[k].t)
  }

  lemma DueOneStepMore(e: Entry, wakes: seq<Wake>, n: nat)
    requires InOrder(wakes) && |wakes| == n + 1
    ensures InOrder(wakes[..n])
    ensures NeverDue(e, wakes) <==> NeverDue(e, wakes[..n]) && !Overdue(e, wakes[n].t)
    ensures !NeverDue(e, wakes[..n]) ==> Overdue(e, wakes[n].t)
  {
    assert forall k :: 0 <= k < n ==> wakes[..n][k] == wakes[k];
    if !NeverDue(e, wakes[..n]) {
      var k :| 0 <= k < n && Overdue(e, wakes[..n][k].t);
      assert wakes[k].t <= wakes[n].t;
    }
  }

  ghost predicate AllLeave(wakes: seq<Wake>, id: nat) {
    forall k :: 0 <= k < |wakes| ==> Leaves(wakes[k], id)
  }

  lemma InitLeaves(wakes: seq<Wake>, id: nat)
    requires AllLeave(wakes, id) && wakes != []
    ensures AllLeave(wakes[..|wakes| - 1], id) && Leaves(wakes[|wakes| - 1], id)
  {}

  /** A transaction whose end nobody requests stays live until the first wake at or after its
      deadline, and not longer. */
  lemma {:induction false} LivesUntilDeadline(st: State, wakes: seq<Wake>, e: Entry)
    requires Good(st) && e in st.table && InOrder(wakes) && AllLeave(wakes, e.key)
    ensures Good(Run(st, wakes).0)
    ensures e in Run(st, wakes).0.table <==> NeverDue(e, wakes)
    decreases |wakes|
  {
    if wakes == [] {
    } else {
      var n := |wakes| - 1;
      var before := Run(st, wakes[..n]).0;
      DueOneStepMore(e, wakes, n);
      InitLeaves(wakes, e.key);
      LivesUntilDeadline(st, wakes[..n], e);
      LivesOneTurnMore(before, wakes[n], e);
    }
  }

  lemma {:induction false} LivesOneTurnMore(st: State, w: Wake, e: Entry)
    requires Good(st) && Leaves(w, e.key) && (e !in st.table ==> Overdue(e, w.t))
    ensures Good(Turn(st, w).0)
    ensures e in Turn(st, w).0.table <==> e in st.table && !Overdue(e, w.t)
  {
    TurnIsGood(st, w);
    if e in st.table {
      TurnLeaves(st, w, e);
    } else {
      GoneStaysGone(st, w, e);
    }
  }

  /** The deadline of a transaction that is begun at `t`. */
  function DeadlineOf(t: int, timeout: nat): int {
    t + timeout
  }

  /** What a begin leads to if nobody ends the transaction: live, with nothing but the begin posted, or timed out. */
  ghost predicate BegunAndLeft(id: nat, due: bool, table: seq<Entry>, events: seq<Event>) {
    && (Live(table, id) <==> !due)
    && Of(events, id) == if due then [Begin(id), Abort(id)] else [Begin(id)]
  }

  lemma {:induction false} BeginTurn(st: State, w: Wake, timeout: nat, e: Entry)
    requires Good(st) && w.req == Some(BeginTrans(timeout)) && NextAnswer(st) != 0
    requires e == Entry(NextAnswer(st), DeadlineOf(w.t, timeout))
    ensures BegunAndLeft(e.key, Overdue(e, w.t), Turn(st, w).0.table, Turn(st, w).1)
    ensures Good(Turn(st, w).0) && (e in Turn(st, w).0.table <==> !Overdue(e, w.t))
  {
    TurnIsGood(st, w);
    var (mid, events) := Handled(st, w);
    assert mid.table == st.table + [e] && events == [Begin(e.key)];
    BegunIsDrained(mid, w.t, e);
  }

  lemma {:induction false} BegunIsDrained(mid: State, t: int, e: Entry)
    requires Good(mid) && mid.table != [] && mid.table[|mid.table| - 1] == e
    ensures BegunAndLeft(e.key, Overdue(e, t), Kept(mid.table, t), [Begin(e.key)] + Expired(mid.table, t))
    ensures e in Kept(mid.table, t) <==> !Overdue(e, t)
  {
    assert IndexOfKey(mid.table, e.key) == |mid.table| - 1;
    DrainAborts(mid, t, e.key);
    OfAppend([Begin(e.key)], Expired(mid.table, t), e.key);
    assert [Begin(e.key)][1..] == [];
    KeptIsPart(mid.table, t);
  }

  /** A transaction that a begin with this timeout was answered with, and whose end nobody requests, is live, with
      nothing posted after its begin, until its timeout has passed; the first wake from then on aborts it once. */
  lemma {:induction false} BegunTimesOut(st: State, wakes: seq<Wake>, timeout: nat, e: Entry)
    requires Good(st) && wakes != [] && wakes[0].req == Some(BeginTrans(timeout)) && NextAnswer(st) != 0
    requires e == Entry(NextAnswer(st), DeadlineOf(wakes[0].t, timeout))
    requires InOrder(wakes) && AllLeave(wakes, e.key) && (|wakes| > 1 ==> !Overdue(e, wakes[|wakes| - 2].t))
    ensures BegunAndLeft(e.key, Overdue(e, wakes[|wakes| - 1].t), Run(st, wakes).0.table, Run(st, wakes).1)
    ensures Good(Run(st, wakes).0) && (e in Run(st, wakes).0.table <==> !Overdue(e, wakes[|wakes| - 1].t))
    decreases |wakes|
  {
    var n := |wakes| - 1;
    if n == 0 {
      BeginTurn(st, wakes[0], timeout, e);
      assert wakes[..n] == [] && Run(st, []) == (st, []);
      assert [] + Turn(st, wakes[0]).1 == Turn(st, wakes[0]).1;
    } else {
      StillBegun(wakes, e);
      BegunTimesOut(st, wakes[..n], timeout, e);
      BegunTurn(Run(st, wakes[..n]).0, Run(st, wakes[..n]).1, wakes[n], e);
    }
  }

  lemma StillBegun(wakes: seq<Wake>, e: Entry)
    requires |wakes| > 1 && InOrder(wakes) && AllLeave(wakes, e.key) && !Overdue(e, wakes[|wakes| - 2].t)
    ensures var init := wakes[..|wakes| - 1];
            && init[0] == wakes[0] && InOrder(init) && AllLeave(init, e.key) && !Overdue(e, init[|init| - 1].t)
            && (|init| > 1 ==> !Overdue(e, init[|init| - 2].t))
  {}

  lemma {:induction false} BegunTurn(st: State, h: seq<Event>, w: Wake, e: Entry)
    requires Good(st) && e in st.table && Leaves(w, e.key) && BegunAndLeft(e.key, false, st.table, h)
    ensures BegunAndLeft(e.key, Overdue(e, w.t), Turn(st, w).0.table, h + Turn(st, w).1)
    ensures Good(Turn(st, w).0) && (e in Turn(st, w).0.table <==> !Overdue(e, w.t))
  {
    TurnIsGood(st, w);
    TurnLeaves(st, w, e);
    OfAppend(h, Turn(st, w).1, e.key);
    KeyGoesWithEntry(st, w, e);
  }

  /** The id is live afterwards exactly when its entry is. */
  lemma {:induction false} KeyGoesWithEntry(st: State, w: Wake, e: Entry)
    requires Good(st) && e in st.table && Leaves(w, e.key)
    ensures Live(Turn(st, w).0.table, e.key) <==> e in Turn(st, w).0.table
  {
    var mid := Handled(st, w).0;
    HandledLeaves(st, w, e);
    TurnIsGood(st, w);
    KeptIsPart(mid.table, w.t);
    var k :| 0 <= k < |mid.table| && mid.table[k] == e;
    assert IndexOfKey(mid.table, e.key) == k;
    DrainAborts(mid, w.t, e.key);
  }

  // ----- How long the server waits -----

  lemma WaitIsUnique(table: seq<Entry>, t: int, a: int, b: int)
    requires IsWait(table, t, a) && IsWait(table, t, b)
    ensures a == b
  {}

  /** After a drain the server waits for ever exactly when no deadline is left. Otherwise the wait is
      positive and ends exactly at the earliest deadline: draining then aborts some transaction,
      and only transactions whose deadline is that very moment. */
  lemma {:induction false} TimeoutsAreOnTime(table: seq<Entry>, t: int, wait: int)
    requires IsWait(Kept(table, t), t, wait)
    ensures wait == -1 <==> forall e :: e in Kept(table, t) ==> e.endTime == 0
    ensures wait != -1 ==>
              && wait > 0
              && (forall e :: e in Kept(table, t) ==> (Overdue(e, t + wait) <==> e.endTime != 0 && e.endTime == t + wait))
              && (exists e :: e in Kept(table, t) && Overdue(e, t + wait))
  {
    var left := Kept(table, t);
    KeptIsPart(table, t);
    if wait == -1 {
      assert forall e :: e in left ==> e.endTime == 0;
    } else {
      var i :| 0 <= i < |left| && left[i].endTime != 0 &&
               (if wait > 0 then t + wait == left[i].endTime else left[i].endTime <= t);
      assert left[i] in left;
      assert !Overdue(left[i], t);
    }
  }

  lemma {:induction false} WaitExists(table: seq<Entry>, t: int) returns (wait: int)
    ensures IsWait(table, t, wait)
  {
    if table == [] {
      wait := -1;
    } else {
      var n := |table| - 1;
      var before := WaitExists(table[..n], t);
      var e := table[n];
      wait := if e.endTime != 0 && (before < 0 || e.endTime - t < before)
              then (if e.endTime < t then 0 else e.endTime - t) else before;
      WaitOfMore(table[..n], e, t, before, wait);
      assert table == table[..n] + [e];
    }
  }

  /** A wake at `u` is in time if the server, which drained at `t` and has this table left, does not
      wait longer than it meant to. */
  ghost predicate InTime(table: seq<Entry>, t: int, u: int) {
    forall wait :: IsWait(table, t, wait) && wait != -1 ==> u <= t + wait
  }

  /** No wake comes later than the end of the wait that the turn before asked for. */
  ghost predicate Prompt(wakes: seq<Wake>) {
    forall k {:trigger wakes[..k]} :: 0 < k < |wakes| ==>
      InTime(Run(INITIAL, wakes[..k]).0.table, wakes[k - 1].t, wakes[k].t)
  }

  lemma HandledAdds(st: State, w: Wake, e: Entry)
    requires e in Handled(st, w).0.table
    ensures e in st.table || (w.req.Some? && w.req.value.BeginTrans? && e.endTime == w.t + w.req.value.timeout)
  {
    match w.req
    case Some(BeginTrans(timeout)) =>
    case Some(CommitTrans(ended)) => assert forall i :: 0 <= i < |st.table| ==> st.table[i] in st.table;
    case Some(AbortTrans(ended)) => assert forall i :: 0 <= i < |st.table| ==> st.table[i] in st.table;
    case None =>
  }

  lemma {:induction false} NotBeforeDeadline(table: seq<Entry>, t: int, u: int, e: Entry)
    requires InTime(Kept(table, t), t, u) && e in Kept(table, t) && Overdue(e, u)
    ensures e.endTime == u
  {
    var left := Kept(table, t);
    var wait := WaitExists(left, t);
    TimeoutsAreOnTime(table, t, wait);
    var i :| 0 <= i < |left| && left[i] == e;
  }

  /** In every prompt run, whatever a turn aborts because of its time is aborted at the very second of
      its deadline. */
  lemma PromptRunsAbortOnTime(wakes: seq<Wake>, k: nat, e: Entry)
    requires Prompt(wakes) && k < |wakes|
    requires e in Handled(Run(INITIAL, wakes[..k]).0, wakes[k]).0.table && Overdue(e, wakes[k].t)
    ensures e.endTime == wakes[k].t
  {
    HandledAdds(Run(INITIAL, wakes[..k]).0, wakes[k], e);
    assert k == 0 ==> Run(INITIAL, wakes[..k]).0 == INITIAL;
    if k > 0 && e in Run(INITIAL, wakes[..k]).0.table {
      NotLateInPromptRun(wakes, k, e);
    }
  }

  lemma {:induction false} NotLateInPromptRun(wakes: seq<Wake>, k: nat, e: Entry)
    requires Prompt(wakes) && 0 < k < |wakes| && e in Run(INITIAL, wakes[..k]).0.table && Overdue(e, wakes[k].t)
    ensures e.endTime == wakes[k].t
  {
    RunNext(wakes, k - 1);
    assert InTime(Run(INITIAL, wakes[..k]).0.table, wakes[k - 1].t, wakes[k].t);
    NotBeforeDeadline(Handled(Run(INITIAL, wakes[..k - 1]).0, wakes[k - 1]).0.table, wakes[k - 1].t, wakes[k].t, e);
  }

  // ----- What is handed to `Wait` -----

  /** The pause is the wait exactly when the wait is not more than 21474836 seconds; beyond that the
      multiplication overflows. */
  lemma PauseIsExact(table: seq<Entry>, t: int, wait: int, pause: int)
    requires IsWait(table, t, wait) && IsPause(table, t, pause)
    ensures pause == (if wait > 0 then 100 * wait else wait) <==> wait <= 21474836
  {
    var w :| IsWait(table, t, w) && pause == Hundredths(w);
    WaitIsUnique(table, t, w, wait);
    ToIntSame(100 * wait);
  }

  /** A first transaction of 21474837 seconds leaves the server with a negative pause, for which `Wait`
      has no end. */
  lemma {:induction false} PauseOverflows()
    ensures var table := Run(INITIAL, [Wake(1, Some(BeginTrans(21474837)))]).0.table;
            table == [Entry(2, 21474838)] && IsNear(table, 1) && IsPause(table, 1, -2147483596)
  {
    var w, table := Wake(1, Some(BeginTrans(21474837))), [Entry(2, 21474838)];
    var none: seq<Entry> := [];
    assert !Live(none, 2);
    assert Handled(INITIAL, w).0.table == [] + [Entry(2, 21474838)] == table;
    DrainedInFront(table[0], none, w.t);
    assert table == [table[0]] + none;
    assert Kept(none, w.t) == [];
    assert Turn(INITIAL, w).0.table == table;
    RunOfOne(w);
    assert table[0].endTime == 1 + 21474837;
    assert IsWait(table, 1, 21474837);
    assert Hundredths(21474837) == -2147483596;
  }

  lemma {:induction false} RunOfOne(w: Wake)
    ensures Run(INITIAL, [w]).0 == Turn(INITIAL, w).0
  {
    var wakes := [w];
    assert wakes[..|wakes| - 1] == [] && wakes[|wakes| - 1] == w;
    assert Run(INITIAL, wakes[..|wakes| - 1]).0 == INITIAL;
  }

  /** The longest wait that fits an `int` in hundredths. */
  const LONGEST: nat := 21474836

  predicate IsShort(w: Wake) {
    w.req.Some? && w.req.value.BeginTrans? ==> w.req.value.timeout <= LONGEST
  }

  ghost predicate AllShort(wakes: seq<Wake>) {
    forall k :: 0 <= k < |wakes| ==> IsShort(wakes[k])
  }

  /** Every deadline is still to come, but not far away. */
  ghost predicate IsWithin(table: seq<Entry>, t: int) {
    forall e :: e in table && e.endTime != 0 ==> t < e.endTime <= t + LONGEST
  }

  lemma {:induction false} TurnIsWithin(st: State, t: int, w: Wake)
    requires IsWithin(st.table, t) && t <= w.t && IsShort(w)
    ensures IsWithin(Turn(st, w).0.table, w.t)
  {
    forall e | e in Turn(st, w).0.table && e.endTime != 0 ensures w.t < e.endTime <= w.t + LONGEST {
      KeptIsPart(Handled(st, w).0.table, w.t);
      HandledAdds(st, w, e);
    }
  }

  lemma ShortPrefix(wakes: seq<Wake>, n: nat)
    requires InOrder(wakes) && AllShort(wakes) && n <= |wakes|
    ensures InOrder(wakes[..n]) && AllShort(wakes[..n])
  {}

  lemma {:induction false} ShortRunsAreWithin(wakes: seq<Wake>)
    requires InOrder(wakes) && AllShort(wakes) && wakes != []
    ensures IsWithin(Run(INITIAL, wakes).0.table, wakes[|wakes| - 1].t)
    decreases |wakes|
  {
    var n := |wakes| - 1;
    ShortPrefix(wakes, n);
    if n == 0 {
      assert Run(INITIAL, wakes[..n]).0 == INITIAL;
      TurnIsWithin(INITIAL, wakes[n].t, wakes[n]);
    } else {
      ShortRunsAreWithin(wakes[..n]);
      assert wakes[n - 1].t <= wakes[n].t;
      TurnIsWithin(Run(INITIAL, wakes[..n]).0, wakes[n - 1].t, wakes[n]);
    }
  }

  lemma WithinIsNear(table: seq<Entry>, t: int, wait: int)
    requires IsWithin(table, t)
    ensures IsNear(table, t)
    ensures IsWait(table, t, wait) ==> wait <= LONGEST
  {
    forall i | 0 <= i < |table| && table[i].endTime != 0 ensures t < table[i].endTime <= t + LONGEST {
      assert table[i] in table;
    }
  }

  /** If no timeout of a run is longer than 21474836 seconds and the clock does not go back, every table
      that the run reaches is near and the pause is exactly the time to the earliest deadline. */
  lemma {:induction false} ShortTimeoutsPauseExactly(wakes: seq<Wake>, wait: int, pause: int)
    requires InOrder(wakes) && AllShort(wakes) && wakes != []
    ensures var table, t := Run(INITIAL, wakes).0.table, wakes[|wakes| - 1].t;
            && IsNear(table, t)
            && (IsWait(table, t, wait) && IsPause(table, t, pause) ==> pause == if wait > 0 then 100 * wait else wait)
  {
    var table, t := Run(INITIAL, wakes).0.table, wakes[|wakes| - 1].t;
    ShortRunsAreWithin(wakes);
    WithinIsNear(table, t, wait);
    if IsWait(table, t, wait) && IsPause(table, t, pause) {
      PauseIsExact(table, t, wait, pause);
    }
  }

  /** A wake at `u` does not come after the end of the pause; a negative pause has no end. */
  ghost predicate AfterNoPause(table: seq<Entry>, t: int, u: int) {
    forall pause :: IsPause(table, t, pause) && pause >= 0 ==> 100 * (u - t) <= pause
  }

  /** No wake comes later than the end of the pause that the turn before handed to `Wait`. */
  ghost predicate PromptByPause(wakes: seq<Wake>) {
    forall k {:trigger wakes[..k]} :: 0 < k < |wakes| ==>
      AfterNoPause(Run(INITIAL, wakes[..k]).0.table, wakes[k - 1].t, wakes[k].t)
  }

  lemma {:induction false} PauseIsInTime(wakes: seq<Wake>, k: nat)
    requires InOrder(wakes) && AllShort(wakes) && 0 < k < |wakes|
    requires AfterNoPause(Run(INITIAL, wakes[..k]).0.table, wakes[k - 1].t, wakes[k].t)
    ensures InTime(Run(INITIAL, wakes[..k]).0.table, wakes[k - 1].t, wakes[k].t)
  {
    var table, t := Run(INITIAL, wakes[..k]).0.table, wakes[k - 1].t;
    ShortPrefix(wakes, k);
    forall wait | IsWait(table, t, wait) && wait != -1 ensures wakes[k].t <= t + wait {
      var pause := Hundredths(wait);
      assert IsPause(table, t, pause);
      ShortTimeoutsPauseExactly(wakes[..k], wait, pause);
    }
  }

  /** In every run with such timeouts whose wakes come no later than the pauses end, whatever is aborted
      because of its time is aborted at the second of its deadline. */
  lemma ShortRunsAbortOnTime(wakes: seq<Wake>, k: nat, e: Entry)
    requires InOrder(wakes) && AllShort(wakes) && PromptByPause(wakes) && k < |wakes|
    requires e in Handled(Run(INITIAL, wakes[..k]).0, wakes[k]).0.table && Overdue(e, wakes[k].t)
    ensures e.endTime == wakes[k].t
  {
    forall j {:trigger wakes[..j]} | 0 < j < |wakes|
      ensures InTime(Run(INITIAL, wakes[..j]).0.table, wakes[j - 1].t, wakes[j].t)
    {
      PauseIsInTime(wakes, j);
    }
    assert Prompt(wakes);
    PromptRunsAbortOnTime(wakes, k, e);
  }
}
