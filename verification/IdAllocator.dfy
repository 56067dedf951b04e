/** The identifier search that the buffer server and the timer server share word for word
    (gmsbuffer.cc:286-322, wtimer.cc:293-329): ids run from 1 to 8192 and the search starts
    after the last one handed out. */
module IdAllocator {

  const MAX_ID: nat := 8192

  /** The id tried at step `i`, wrapping round past the largest. */
  function Candidate(last: nat, i: nat): nat {
    if last + i > MAX_ID then last + i - MAX_ID else last + i
  }

  /** The first candidate not in use, from step `i` on; 0 if there is none. */
  function FirstFree(ids: seq<nat>, last: nat, i: nat): nat
    decreases MAX_ID - i
  {
    if i >= MAX_ID then 0
    else if Candidate(last, i) !in ids then Candidate(last, i)
    else FirstFree(ids, last, i + 1)
  }

  /** The new value of the "last id" register, which is also the id handed out. */
  function NextId(ids: seq<nat>, last: nat): nat {
    if ids == [] then 1 else FirstFree(ids, last, 1)
  }

  method GetNewId(ids: seq<nat>, last: nat) returns (id: nat)
    ensures id == NextId(ids, last)
  {
    if |ids| > 0 {
      var i := 1;
      var newId := 0;
      id := 0;
      while i < MAX_ID
        invariant 1 <= i <= MAX_ID && id == 0
        invariant FirstFree(ids, last, 1) == FirstFree(ids, last, i)
      {
        newId := last + i;
        if newId > MAX_ID {
          newId := newId - MAX_ID;
        }
        var j := 0;
        while j < |ids|
          invariant 0 <= j <= |ids| && newId !in ids[..j]
        {
          if ids[j] == newId {
            break;
          }
          j := j + 1;
        }
        if j == |ids| {
          assert ids[..j] == ids;
          id := newId;
          break;
        }
        i := i + 1;
      }
    } else {
      id := 1;
    }
  }

  // ----- What the search guarantees -----

  /** The one id a search does not try: the last one handed out, or the largest after a failure. */
  function Skipped(last: nat): nat {
    if last == 0 then MAX_ID else last
  }

  lemma {:induction false} FirstFreeSpec(ids: seq<nat>, last: nat, i: nat)
    requires last <= MAX_ID && 1 <= i
    ensures var r := FirstFree(ids, last, i);
            if r == 0 then forall j :: i <= j < MAX_ID ==> Candidate(last, j) in ids
            else 1 <= r <= MAX_ID && r !in ids && r != Skipped(last)
    decreases MAX_ID - i
  {
    if i < MAX_ID && Candidate(last, i) in ids {
      FirstFreeSpec(ids, last, i + 1);
    }
  }

  /** The search returns an unused id between 1 and 8192; it returns 0 exactly when ids are in
      use and every id but the skipped one is among them. */
  lemma NextIdSpec(ids: seq<nat>, last: nat)
    requires ids != [] ==> last <= MAX_ID
    ensures NextId(ids, last) != 0 ==> 1 <= NextId(ids, last) <= MAX_ID && NextId(ids, last) !in ids
    ensures NextId(ids, last) == 0 <==>
            ids != [] && forall id :: 1 <= id <= MAX_ID && id != Skipped(last) ==> id in ids
  {
    if ids != [] {
      FirstFreeSpec(ids, last, 1);
      if NextId(ids, last) == 0 {
        forall id | 1 <= id <= MAX_ID && id != Skipped(last) ensures id in ids {
          var j := if id > last then id - last else id + MAX_ID - last;
          assert Candidate(last, j) == id;
        }
      }
    }
  }

  /** How many steps the search takes from the last id to this one: one for the next id, and on from 1 after the
      largest. */
  function StepsAfter(last: nat, id: nat): int {
    if id > last then id - last else id + 8192 - last
  }

  lemma {:induction false} FoundAtStep(ids: seq<nat>, last: nat, i: nat) returns (j: nat)
    requires last <= MAX_ID && 1 <= i && FirstFree(ids, last, i) != 0
    ensures i <= j < MAX_ID && FirstFree(ids, last, i) == Candidate(last, j)
    ensures forall m :: i <= m < j ==> Candidate(last, m) in ids
    decreases MAX_ID - i
  {
    j := i;
    if Candidate(last, i) in ids {
      j := FoundAtStep(ids, last, i + 1);
    }
  }

  /** The id found is the first unused one after the last id handed out, and 1 if no ids are in use. */
  lemma {:induction false} NextIdIsFirst(ids: seq<nat>, last: nat, id: nat)
    requires ids != [] ==> last <= MAX_ID
    ensures ids == [] ==> NextId(ids, last) == 1
    ensures ids != [] && NextId(ids, last) != 0 && 1 <= id <= MAX_ID && StepsAfter(last, id) < StepsAfter(last, NextId(ids, last)) ==>
              id in ids
  {
    if ids != [] && NextId(ids, last) != 0 && 1 <= id <= MAX_ID && StepsAfter(last, id) < StepsAfter(last, NextId(ids, last)) {
      var j := FoundAtStep(ids, last, 1);
      assert Candidate(last, StepsAfter(last, id)) == id;
    }
  }

  function IdsTo(n: nat): (r: set<nat>)
    ensures |r| == n && forall id :: id in r <==> 1 <= id <= n
  {
    if n == 0 then {} else IdsTo(n - 1) + {n}
  }

  lemma {:induction false} Pigeonhole(a: set<nat>, s: seq<nat>)
    requires forall x :: x in a ==> x in s
    ensures |a| <= |s|
  {
    if s == [] {
      assert a == {};
    } else {
      Pigeonhole(a - {s[0]}, s[1..]);
      assert |a| <= |a - {s[0]}| + 1 by {
        assert s[0] in a ==> a == (a - {s[0]}) + {s[0]};
        assert s[0] !in a ==> a == a - {s[0]};
      }
    }
  }

  lemma {:induction false} AllButOne(n: nat, skipped: nat)
    requires 1 <= skipped <= n
    ensures |IdsTo(n) - {skipped}| == n - 1
  {
    assert IdsTo(n) == (IdsTo(n) - {skipped}) + {skipped};
  }

  /** A list of fewer than `n - 1` ids misses one that is not the skipped one. */
  lemma SomeIdIsFree(ids: seq<nat>, n: nat, skipped: nat) returns (id: nat)
    requires 1 <= skipped <= n && |ids| < n - 1
    ensures 1 <= id <= n && id != skipped && id !in ids
  {
    var tried := IdsTo(n) - {skipped};
    AllButOne(n, skipped);
    if forall x :: x in tried ==> x in ids {
      Pigeonhole(tried, ids);
      assert false;
    }
    id :| id in tried && id !in ids;
  }

  /** With fewer than 8191 ids in use a search always succeeds. */
  lemma RoomMeansSuccess(ids: seq<nat>, last: nat)
    requires ids != [] ==> last <= MAX_ID
    requires |ids| < MAX_ID - 1
    ensures NextId(ids, last) != 0
  {
    NextIdSpec(ids, last);
    if ids != [] {
      var free := SomeIdIsFree(ids, MAX_ID, Skipped(last));
    }
  }
}
