/** The timer table and what a drain does to it (gm_timer/wtimer.cc). The clock is a parameter, read
    once for each message and once for each drain. */
module Timers {
  import opened Common

  datatype Timer = Timer(id: nat, endT: int, restart: nat, servicio: string, tipo: char, trans: nat, msg: Bytes)

  const GM_MSG_TYPE_MSG: char := 'M'
  const GM_MSG_TYPE_NOT: char := 'N'

  /** Only so many characters of a service name are kept. */
  const NAME_WIDTH: nat := 32

  function TimerIds(list: seq<Timer>): (r: seq<nat>)
    ensures |r| == |list|
  {
    seq(|list|, i requires 0 <= i < |list| => list[i].id)
  }

  // ----- What happens to one timer at time t -----

  /** The first deadline after `t` of a timer that repeats every `r` from `e` on. */
  function Deadline(e: int, r: nat, t: int): int
    requires r > 0
    decreases t - e
  {
    if e > t then e else Deadline(e + r, r, t)
  }

  /** How many deadlines it has up to `t`. */
  function Firings(e: int, r: nat, t: int): nat
    requires r > 0
    decreases t - e
  {
    if e > t then 0 else 1 + Firings(e + r, r, t)
  }

  lemma {:induction false} DeadlineAfterFirings(e: int, r: nat, t: int)
    requires r > 0 && e <= t
    ensures Firings(e, r, t) >= 1 && Deadline(e, r, t) == e + r * Firings(e, r, t)
    ensures t < Deadline(e, r, t) <= t + r
    decreases t - e
  {
    var n := Firings(e + r, r, t);
    assert Firings(e, r, t) == 1 + n && Deadline(e, r, t) == Deadline(e + r, r, t);
    assert r * (1 + n) == r + r * n;
    if e + r <= t {
      DeadlineAfterFirings(e + r, r, t);
    }
  }

  lemma {:induction false} RepeaterClosedForm(e: int, r: nat, t: int)
    requires r > 0 && e <= t
    ensures Firings(e, r, t) == (t - e) / r + 1
    ensures Deadline(e, r, t) == e + r * Firings(e, r, t)
    ensures t < Deadline(e, r, t) <= t + r
  {
    DeadlineAfterFirings(e, r, t);
    var q := Firings(e, r, t) - 1;
    assert r * (q + 1) == r * q + r;
    QuotientUnique(t - e, r, q, t - e - r * q);
  }

  function FiringsOf(tm: Timer, t: int): nat {
    if tm.endT > t then 0 else if tm.restart == 0 then 1 else Firings(tm.endT, tm.restart, t)
  }

  /** What is left of a timer: itself, itself with a later deadline, or nothing. */
  function After(tm: Timer, t: int): seq<Timer> {
    if tm.endT > t then [tm]
    else if tm.restart == 0 then []
    else [tm.(endT := Deadline(tm.endT, tm.restart, t))]
  }

  // ----- What happens to the table -----

  function Drained(list: seq<Timer>, t: int): seq<Timer> {
    if list == [] then [] else After(list[0], t) + Drained(list[1..], t)
  }

  function Copies<T>(x: T, n: nat): (r: seq<T>)
    ensures |r| == n
  {
    if n == 0 then [] else [x] + Copies(x, n - 1)
  }

  /** The ids that fire, in order: each timer all its overdue times before the next one. */
  function Fired(list: seq<Timer>, t: int): seq<nat> {
    if list == [] then [] else Copies(list[0].id, FiringsOf(list[0], t)) + Fired(list[1..], t)
  }

  function IndexOfTimer(list: seq<Timer>, id: nat): (i: nat)
    ensures i <= |list|
    ensures i < |list| ==> list[i].id == id
    ensures forall j :: 0 <= j < i ==> list[j].id != id
  {
    First(list, (x: Timer) => x.id == id)
  }

  /** `Check`: the first overdue timer, or the length of the list. */
  function FirstOverdue(list: seq<Timer>, t: int): (i: nat)
    ensures i <= |list|
    ensures i < |list| ==> list[i].endT <= t
    ensures forall j :: 0 <= j < i ==> list[j].endT > t
  {
    First(list, (x: Timer) => x.endT <= t)
  }

  /** `Ok` on the element at `i`: advance a repeating timer by one period, drop any other. */
  function Acknowledged(list: seq<Timer>, i: nat): seq<Timer>
    requires i < |list|
  {
    if list[i].restart > 0 then list[i := list[i].(endT := list[i].endT + list[i].restart)]
    else list[..i] + list[i + 1..]
  }

  lemma {:induction false} Unrolled(x: Timer, rest: seq<Timer>, t: int)
    ensures Drained([x] + rest, t) == After(x, t) + Drained(rest, t)
    ensures Fired([x] + rest, t) == Copies(x.id, FiringsOf(x, t)) + Fired(rest, t)
  {
    assert ([x] + rest)[1..] == rest;
  }

  /** What one acknowledgement leaves of an overdue timer. */
  function Acked(x: Timer): seq<Timer> {
    if x.restart > 0 then [x.(endT := x.endT + x.restart)] else []
  }

  lemma {:induction false} AckedAlone(x: Timer, t: int)
    requires x.endT <= t
    ensures Drained(Acked(x), t) == After(x, t)
    ensures [x.id] + Fired(Acked(x), t) == Copies(x.id, FiringsOf(x, t))
  {
    if x.restart > 0 {
      var y := x.(endT := x.endT + x.restart);
      Unrolled(y, [], t);
      assert [y] + [] == [y];
      assert Firings(x.endT, x.restart, t) == 1 + Firings(y.endT, x.restart, t);
      assert Deadline(x.endT, x.restart, t) == Deadline(y.endT, x.restart, t);
    } else {
      assert Copies(x.id, 1) == [x.id] + Copies(x.id, 0);
    }
  }

  lemma {:induction false} AcknowledgeHead(x: Timer, rest: seq<Timer>, t: int)
    requires x.endT <= t
    ensures Drained(Acked(x) + rest, t) == Drained([x] + rest, t)
    ensures Fired([x] + rest, t) == [x.id] + Fired(Acked(x) + rest, t)
  {
    AckedAlone(x, t);
    Unrolled(x, rest, t);
    DrainedAppend(Acked(x), rest, t);
    Associate([x.id], Fired(Acked(x), t), Fired(rest, t));
  }

  lemma AcknowledgedAt(list: seq<Timer>, i: nat)
    requires i < |list|
    ensures Acknowledged(list, i) == list[..i] + (Acked(list[i]) + list[i + 1..])
  {}

  lemma {:induction false} AcknowledgeInside(before: seq<Timer>, x: Timer, after: seq<Timer>, t: int)
    requires x.endT <= t && forall j :: 0 <= j < |before| ==> before[j].endT > t
    ensures Drained(before + (Acked(x) + after), t) == Drained(before + ([x] + after), t)
    ensures Fired(before + ([x] + after), t) == [x.id] + Fired(before + (Acked(x) + after), t)
  {
    AcknowledgeHead(x, after, t);
    AfterNothingDue(before, [x] + after, Acked(x) + after, x.id, t);
  }

  /** One turn of the drain loop takes one firing off what is still to do. */
  lemma {:induction false} AcknowledgeStep(list: seq<Timer>, t: int)
    requires FirstOverdue(list, t) < |list|
    ensures var i := FirstOverdue(list, t);
            && Drained(Acknowledged(list, i), t) == Drained(list, t)
            && Fired(list, t) == [list[i].id] + Fired(Acknowledged(list, i), t)
  {
    var i := FirstOverdue(list, t);
    AcknowledgeInside(list[..i], list[i], list[i + 1..], t);
    AcknowledgedAt(list, i);
    assert list == list[..i] + ([list[i]] + list[i + 1..]);
  }

  lemma {:induction false} NothingDueBefore(before: seq<Timer>, rest: seq<Timer>, t: int)
    requires forall j :: 0 <= j < |before| ==> before[j].endT > t
    ensures Drained(before + rest, t) == before + Drained(rest, t)
    ensures Fired(before + rest, t) == Fired(rest, t)
  {
    NothingDue(before, t);
    DrainedAppend(before, rest, t);
    assert [] + Fired(rest, t) == Fired(rest, t);
  }

  lemma {:induction false} AfterNothingDue(before: seq<Timer>, a: seq<Timer>, b: seq<Timer>, id: nat, t: int)
    requires forall j :: 0 <= j < |before| ==> before[j].endT > t
    requires Drained(b, t) == Drained(a, t) && Fired(a, t) == [id] + Fired(b, t)
    ensures Drained(before + b, t) == Drained(before + a, t)
    ensures Fired(before + a, t) == [id] + Fired(before + b, t)
  {
    NothingDueBefore(before, a, t);
    NothingDueBefore(before, b, t);
  }

  lemma {:induction false} NothingDue(list: seq<Timer>, t: int)
    requires forall j :: 0 <= j < |list| ==> list[j].endT > t
    ensures Drained(list, t) == list && Fired(list, t) == []
  {
    if list != [] {
      NothingDue(list[1..], t);
    }
  }

  // ----- What is left after a drain -----

  lemma {:induction false} NothingOverdueIsLeft(list: seq<Timer>, t: int)
    ensures forall j :: 0 <= j < |Drained(list, t)| ==> Drained(list, t)[j].endT > t
  {
    if list == [] {
    } else {
      NothingOverdueIsLeft(list[1..], t);
      if list[0].endT <= t && list[0].restart > 0 {
        RepeaterClosedForm(list[0].endT, list[0].restart, t);
      }
    }
  }

  ghost predicate DistinctTimers(list: seq<Timer>) {
    forall i, j :: 0 <= i < j < |list| ==> list[i].id != list[j].id
  }

  lemma {:induction false} DrainedIds(list: seq<Timer>, t: int, x: Timer)
    requires x in Drained(list, t)
    ensures exists y :: y in list && y.id == x.id && After(y, t) == [x]
  {
    if list == [] {
    } else if x in After(list[0], t) {
      assert After(list[0], t) == [x];
    } else {
      DrainedIds(list[1..], t, x);
    }
  }

  lemma {:induction false} FiredIds(list: seq<Timer>, t: int, id: nat)
    requires id in Fired(list, t)
    ensures exists y :: y in list && y.id == id
  {
    if list == [] {
    } else if id in Copies(list[0].id, FiringsOf(list[0], t)) {
      CopiesOf(list[0].id, FiringsOf(list[0], t), id);
    } else {
      FiredIds(list[1..], t, id);
    }
  }

  lemma {:induction false} CopiesOf<T>(x: T, n: nat, y: T)
    ensures multiset(Copies(x, n))[y] == if x == y then n else 0
  {
    if n > 0 {
      CopiesOf(x, n - 1, y);
    }
  }

  lemma {:induction false} OnlyItsOwn(list: seq<Timer>, t: int, k: nat, x: Timer)
    requires DistinctTimers(list) && k < |list| && x in Drained(list, t) && x.id == list[k].id
    ensures After(list[k], t) == [x]
  {
    DrainedIds(list, t, x);
    var y :| y in list && y.id == x.id && After(y, t) == [x];
    var j :| 0 <= j < |list| && list[j] == y;
    assert j == k;
  }

  /** Each timer fires as often as it has deadlines up to t: once if it does not repeat,
      (t - e) / r + 1 times if it repeats with period r from e. It is then gone, or it stays
      with its next deadline, in (t, t + r]. */
  lemma {:induction false} EachTimerFires(list: seq<Timer>, t: int, k: nat)
    requires DistinctTimers(list) && k < |list|
    ensures multiset(Fired(list, t))[list[k].id] == FiringsOf(list[k], t)
    ensures forall x :: x in Drained(list, t) && x.id == list[k].id ==> After(list[k], t) == [x]
    ensures list[k].endT <= t && list[k].restart == 0 ==> forall x :: x in Drained(list, t) ==> x.id != list[k].id
    ensures list[k].endT <= t && list[k].restart > 0 ==>
              var x := list[k].(endT := Deadline(list[k].endT, list[k].restart, t));
              x in Drained(list, t) && t < x.endT <= t + x.restart &&
              FiringsOf(list[k], t) == (t - list[k].endT) / list[k].restart + 1
  {
    FiringCount(list, t, k);
    forall x | x in Drained(list, t) && x.id == list[k].id ensures After(list[k], t) == [x] {
      OnlyItsOwn(list, t, k, x);
    }
    if list[k].endT <= t && list[k].restart > 0 {
      RepeaterStays(list, t, k);
    }
  }

  lemma {:induction false} RepeaterStays(list: seq<Timer>, t: int, k: nat)
    requires k < |list| && list[k].endT <= t && list[k].restart > 0
    ensures var x := list[k].(endT := Deadline(list[k].endT, list[k].restart, t));
            x in Drained(list, t) && t < x.endT <= t + x.restart &&
            FiringsOf(list[k], t) == (t - list[k].endT) / list[k].restart + 1
  {
    var x := list[k].(endT := Deadline(list[k].endT, list[k].restart, t));
    assert After(list[k], t) == [x];
    RepeaterClosedForm(list[k].endT, list[k].restart, t);
    StaysInDrained(list, t, k);
  }

  lemma DistinctRest(list: seq<Timer>, k: nat)
    requires DistinctTimers(list) && 0 < k < |list|
    ensures DistinctTimers(list[1..]) && list[1..][k - 1] == list[k] && list[k].id != list[0].id
  {}

  lemma {:induction false} FirstIsNotInRest(list: seq<Timer>, t: int)
    requires DistinctTimers(list) && list != []
    ensures multiset(Fired(list[1..], t))[list[0].id] == 0
  {
    if list[0].id in Fired(list[1..], t) {
      FiredIds(list[1..], t, list[0].id);
      assert false;
    }
  }

  lemma {:induction false} CountInFront(x: Timer, rest: seq<Timer>, t: int, id: nat)
    ensures multiset(Fired([x] + rest, t))[id] == multiset(Fired(rest, t))[id] + if x.id == id then FiringsOf(x, t) else 0
  {
    Unrolled(x, rest, t);
    CopiesOf(x.id, FiringsOf(x, t), id);
    CountInTwo(Copies(x.id, FiringsOf(x, t)), Fired(rest, t), id);
  }

  lemma {:induction false} FiringCount(list: seq<Timer>, t: int, k: nat)
    requires DistinctTimers(list) && k < |list|
    ensures multiset(Fired(list, t))[list[k].id] == FiringsOf(list[k], t)
    decreases |list|
  {
    assert list == [list[0]] + list[1..];
    CountInFront(list[0], list[1..], t, list[k].id);
    if k == 0 {
      FirstIsNotInRest(list, t);
    } else {
      DistinctRest(list, k);
      FiringCount(list[1..], t, k - 1);
    }
  }

  lemma {:induction false} StaysInDrained(list: seq<Timer>, t: int, k: nat)
    requires k < |list|
    ensures forall x :: x in After(list[k], t) ==> x in Drained(list, t)
    decreases |list|
  {
    if k > 0 {
      StaysInDrained(list[1..], t, k - 1);
    }
  }

  // ----- The moments at which the server wakes up do not matter -----

  lemma {:induction false} RepeaterTwice(e: int, r: nat, t: int, u: int)
    requires r > 0 && t <= u
    ensures Deadline(Deadline(e, r, t), r, u) == Deadline(e, r, u)
    ensures Firings(e, r, t) + Firings(Deadline(e, r, t), r, u) == Firings(e, r, u)
    decreases t - e
  {
    if e <= t {
      RepeaterTwice(e + r, r, t, u);
    }
  }

  /** Draining at t and again at u leaves the same table as draining at u alone, and every timer
      has fired the same number of times: no deadline is lost or doubled. */
  lemma {:induction false} DrainTwice(list: seq<Timer>, t: int, u: int)
    requires t <= u
    ensures Drained(Drained(list, t), u) == Drained(list, u)
    ensures multiset(Fired(list, t)) + multiset(Fired(Drained(list, t), u)) == multiset(Fired(list, u))
    decreases |list|
  {
    if list == [] {
    } else {
      var x, rest := list[0], list[1..];
      DrainTwice(rest, t, u);
      DrainedAppend(After(x, t), Drained(rest, t), u);
      OneTimerTwice(x, t, u);
      assert Fired(list, u) == Copies(x.id, FiringsOf(x, u)) + Fired(rest, u);
    }
  }

  lemma {:induction false} DrainedAppend(a: seq<Timer>, b: seq<Timer>, t: int)
    ensures Drained(a + b, t) == Drained(a, t) + Drained(b, t)
    ensures Fired(a + b, t) == Fired(a, t) + Fired(b, t)
    decreases |a|
  {
    if a == [] {
      assert a + b == b;
    } else {
      assert (a + b)[0] == a[0] && (a + b)[1..] == a[1..] + b;
      DrainedAppend(a[1..], b, t);
      Associate(After(a[0], t), Drained(a[1..], t), Drained(b, t));
      Associate(Copies(a[0].id, FiringsOf(a[0], t)), Fired(a[1..], t), Fired(b, t));
    }
  }

  lemma {:induction false} RepeaterDrainedTwice(x: Timer, t: int, u: int)
    requires t <= u && x.endT <= t && x.restart > 0
    ensures Drained(After(x, t), u) == After(x, u)
    ensures Copies(x.id, FiringsOf(x, t)) + Fired(After(x, t), u) == Copies(x.id, FiringsOf(x, u))
  {
    var y := x.(endT := Deadline(x.endT, x.restart, t));
    RepeaterTwice(x.endT, x.restart, t, u);
    RepeaterClosedForm(x.endT, x.restart, t);
    Unrolled(y, [], u);
    assert [y] + [] == [y] && Copies(x.id, FiringsOf(y, u)) + [] == Copies(x.id, FiringsOf(y, u));
    CopiesAdd(x.id, FiringsOf(x, t), FiringsOf(y, u));
  }

  lemma {:induction false} OneTimerTwice(x: Timer, t: int, u: int)
    requires t <= u
    ensures Drained(After(x, t), u) == After(x, u)
    ensures Copies(x.id, FiringsOf(x, t)) + Fired(After(x, t), u) == Copies(x.id, FiringsOf(x, u))
  {
    if x.endT <= t && x.restart > 0 {
      RepeaterDrainedTwice(x, t, u);
    } else if x.endT <= t {
      assert Copies(x.id, 1) + [] == Copies(x.id, 1);
    } else {
      Unrolled(x, [], u);
      assert [x] + [] == [x];
      assert [] + (Copies(x.id, FiringsOf(x, u)) + []) == Copies(x.id, FiringsOf(x, u));
    }
  }

  lemma {:induction false} CopiesAdd<T>(x: T, n: nat, m: nat)
    ensures Copies(x, n) + Copies(x, m) == Copies(x, n + m)
  {
    if n > 0 {
      CopiesAdd(x, n - 1, m);
    }
  }
}
