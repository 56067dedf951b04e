/** What the chunked reply protocol promises, whatever other parties do to the same store. */
module ChunkedTheorems {
  import opened Common
  import opened IdAllocator
  import opened BufferServer
  import opened BufferTheorems
  import opened ChunkedReply

  lemma TakeKeepsGood(st: Store, step: Step)
    requires Good(st)
    ensures Good(Take(st, step))
  {
    match step
    case First(q, s, trans, timer, _) => ProcessKeepsGood(st, New(s.data, trans, timer));
    case Next(_, _) =>
    case Direct(req) => ProcessKeepsGood(st, req);
  }

  lemma ForeignStepKeepsBuffer(st: Store, step: Step, id: nat, trans: nat, data: Bytes)
    requires Good(st) && Holds(st, id, trans, data) && Foreign(step, id, trans)
    ensures Holds(Take(st, step), id, trans, data)
  {
    match step
    case First(q, s, trans', timer, _) => SparedBufferStays(st, New(s.data, trans', timer), id, trans, data);
    case Next(_, _) =>
    case Direct(req) => SparedBufferStays(st, req, id, trans, data);
  }

  lemma {:induction false} ForeignStepsKeepBuffer(st: Store, steps: seq<Step>, id: nat, trans: nat, data: Bytes)
    requires Good(st) && Holds(st, id, trans, data) && AllForeign(steps, id, trans)
    ensures Good(TakeAll(st, steps)) && Holds(TakeAll(st, steps), id, trans, data)
    decreases |steps|
  {
    if steps == [] {
    } else {
      TakeKeepsGood(st, steps[0]);
      ForeignStepKeepsBuffer(st, steps[0], id, trans, data);
      ForeignStepsKeepBuffer(Take(st, steps[0]), steps[1..], id, trans, data);
    }
  }

  /** The router's answer to a request at `offset`: the next piece, the last piece, or, at the
      end of the data, GME_UNDEFINED. */
  lemma NextAnswer(st: Store, id: nat, trans: nat, data: Bytes, offset: nat, window: nat)
    requires Good(st) && Holds(st, id, trans, data) && 0 < window && offset <= |data|
    ensures RouteNext(st, Query(id, offset, window), Answered) ==
            if offset + window <= |data| then (Answer(data[offset..offset + window], GME_MORE_DATA, id, |data|), None)
            else if offset < |data| then (Answer(data[offset..], GME_OK, id, |data|), Some(id))
            else (Answer([], GME_UNDEFINED, id, 0), None)
  {
    HeldData(st, id, trans, data);
    if offset < |data| < offset + window {
      assert Min(|data| - offset, window) == |data| - offset;
      assert data[offset..|data|] == data[offset..];
    }
  }

  lemma AnnouncedMore(codes: seq<nat>, totals: seq<nat>, length: nat, code: nat, total: nat)
    requires Announced(codes, totals, length)
    requires total == if code == GME_MORE_DATA || code == GME_OK then length else 0
    ensures Announced(codes + [code], totals + [total], length)
  {}

  lemma PullMore(p: Progress, others: seq<Step>, id: nat, trans: nat, data: Bytes, offset: nat, window: nat)
    requires MidTransfer(p, id, trans, data, offset, window) && AllForeign(others, id, trans) && offset + window <= |data|
    ensures MidTransfer(Pull(p, others), id, trans, data, offset + window, window)
    ensures Pull(p, others).codes == p.codes + [GME_MORE_DATA]
  {
    ForeignStepsKeepBuffer(p.st, others, id, trans, data);
    NextAnswer(TakeAll(p.st, others), id, trans, data, offset, window);
    AnnouncedMore(p.codes, p.totals, |data|, GME_MORE_DATA, |data|);
    assert data[..offset] + data[offset..offset + window] == data[..offset + window];
  }

  lemma PullLast(p: Progress, others: seq<Step>, id: nat, trans: nat, data: Bytes, offset: nat, window: nat)
    requires MidTransfer(p, id, trans, data, offset, window) && AllForeign(others, id, trans) && offset + window > |data|
    ensures Finished(Pull(p, others), id, trans, data, offset == |data|)
    ensures Pull(p, others).codes == p.codes + [if offset == |data| then GME_UNDEFINED else GME_OK]
  {
    ForeignStepsKeepBuffer(p.st, others, id, trans, data);
    NextAnswer(TakeAll(p.st, others), id, trans, data, offset, window);
    AnnouncedMore(p.codes, p.totals, |data|, LastCode(offset == |data|), if offset == |data| then 0 else |data|);
    assert data[..offset] + data[offset..] == data;
    assert offset == |data| ==> data[..offset] + [] == data;
  }

  /** One request in the middle of a transfer. */
  lemma PullStep(p: Progress, others: seq<Step>, id: nat, trans: nat, data: Bytes, offset: nat, window: nat)
    requires MidTransfer(p, id, trans, data, offset, window) && AllForeign(others, id, trans)
    ensures var p' := Pull(p, others);
            if offset + window <= |data| then
              MidTransfer(p', id, trans, data, offset + window, window) && p'.codes == p.codes + [GME_MORE_DATA]
            else
              Finished(p', id, trans, data, offset == |data|) &&
              p'.codes == p.codes + [if offset == |data| then GME_UNDEFINED else GME_OK]
  {
    if offset + window <= |data| {
      PullMore(p, others, id, trans, data, offset, window);
    } else {
      PullLast(p, others, id, trans, data, offset, window);
    }
  }

  /** Requests still needed when `offset` bytes have been delivered. */
  function RoundsLeft(length: nat, offset: nat, window: nat): nat
    requires 0 < window
    decreases length - offset
  {
    if offset + window > length then 1 else 1 + RoundsLeft(length, offset + window, window)
  }

  /** How a transfer with `n` full pieces ends. */
  ghost predicate Delivered(p: Progress, id: nat, trans: nat, data: Bytes, exact: bool, n: nat) {
    && Finished(p, id, trans, data, exact)
    && p.codes == Repeated(GME_MORE_DATA, n) + [if exact then GME_UNDEFINED else GME_OK]
  }

  /** How a transfer of the whole data by this window ends. */
  ghost predicate DeliveredWhole(p: Progress, id: nat, trans: nat, data: Bytes, window: nat)
    requires 0 < window
  {
    Delivered(p, id, trans, data, |data| % window == 0, |data| / window)
  }

  /** Whatever others do before it arrives, a deletion finds the buffer and removes it; the buffer stays
      exactly when no deletion was due or it could not be sent. */
  lemma {:induction false} DeletionArrives(p: Progress, late: seq<Step>, id: nat, trans: nat, data: Bytes, exact: bool, sent: bool)
    requires Finished(p, id, trans, data, exact) && AllForeign(late, id, trans)
    ensures Leftover(Served(TakeAll(p.st, late), p.deletion, sent), id, trans, data, exact || !sent)
    ensures Process(TakeAll(p.st, late), Del(id)).1 == Done
  {
    var st := TakeAll(p.st, late);
    ForeignStepsKeepBuffer(p.st, late, id, trans, data);
    HeldData(st, id, trans, data);
    IndexWithout(st.list, IndexOf(st.list, id), id);
  }

  /** What the client is told about a request that failed, by the numbers of the system's list of errors:
      11 for a time-out, 12 for a broken exchange, 16 without a queue, 1 if the answer was a refusal. */
  ghost predicate Tells(code: nat, call: Call) {
    match call
    case Answered => code == 1
    case NoQueue => code == 16
    case Broken(_) => code == 12
    case TimedOut(_) => code == 11
  }

  /** A request that the buffer server does not answer gives the client that code and no data; asked again,
      the transfer goes on from the same place. */
  lemma UnansweredPullKeepsPlace(p: Progress, others: seq<Step>, call: Call, id: nat, trans: nat, data: Bytes,
                                 offset: nat, window: nat)
    requires MidTransfer(p, id, trans, data, offset, window) && AllForeign(others, id, trans) && call != Answered
    ensures var p' := PullBy(p, others, call);
            && MidTransfer(p', id, trans, data, offset, window)
            && p'.codes == p.codes + [CodeOf(call)] && Tells(CodeOf(call), call) && p'.deletion == None
  {
    ForeignStepsKeepBuffer(p.st, others, id, trans, data);
    AnnouncedMore(p.codes, p.totals, |data|, CodeOf(call), 0);
    assert p.received + [] == p.received;
  }

  // ----- Requests that are repeated until they are answered -----

  function AnsweredIn(attempts: seq<Attempt>): nat {
    if attempts == [] then 0 else (if attempts[0].call == Answered then 1 else 0) + AnsweredIn(attempts[1..])
  }

  /** What the client is told before the end: GME_MORE_DATA, or why its request was not answered. */
  function CodeBefore(call: Call): nat {
    if call == Answered then GME_MORE_DATA else CodeOf(call)
  }

  function CodesOf(attempts: seq<Attempt>, last: nat): (codes: seq<nat>)
    ensures |codes| == |attempts|
  {
    if attempts == [] then []
    else if |attempts| == 1 then [last]
    else [CodeBefore(attempts[0].call)] + CodesOf(attempts[1..], last)
  }

  /** Undisturbed requests, of which `n` are answered, the last one among them. */
  ghost predicate Repeating(attempts: seq<Attempt>, id: nat, trans: nat, n: nat) {
    && attempts != [] && attempts[|attempts| - 1].call == Answered && AnsweredIn(attempts) == n
    && forall i :: 0 <= i < |attempts| ==> AllForeign(attempts[i].others, id, trans)
  }

  lemma {:induction false} LastIsAnswered(attempts: seq<Attempt>)
    requires attempts != [] && attempts[|attempts| - 1].call == Answered
    ensures AnsweredIn(attempts) >= 1
  {
    if |attempts| > 1 {
      LastIsAnswered(attempts[1..]);
    }
  }

  lemma {:induction false} RepeatingRest(attempts: seq<Attempt>, id: nat, trans: nat, n: nat)
    requires Repeating(attempts, id, trans, n)
    ensures var m := n - if attempts[0].call == Answered then 1 else 0;
            if |attempts| == 1 then m == 0 && attempts[1..] == []
            else m >= 1 && Repeating(attempts[1..], id, trans, m)
  {
    if |attempts| == 1 {
      assert attempts[1..] == [];
    } else {
      assert forall i :: 0 <= i < |attempts[1..]| ==> attempts[1..][i] == attempts[i + 1];
      LastIsAnswered(attempts[1..]);
    }
  }

  /** The offset of the last request of a transfer. */
  function LastOffset(length: nat, offset: nat, window: nat): nat
    requires 0 < window
    decreases length - offset
  {
    if offset + window > length then offset else LastOffset(length, offset + window, window)
  }

  function LastCode(exact: bool): nat {
    if exact then GME_UNDEFINED else GME_OK
  }

  lemma {:induction false} CodesInFront(codes: seq<nat>, attempts: seq<Attempt>, last: nat)
    requires |attempts| > 1
    ensures codes + CodesOf(attempts, last) == (codes + [CodeBefore(attempts[0].call)]) + CodesOf(attempts[1..], last)
  {
    Associate(codes, [CodeBefore(attempts[0].call)], CodesOf(attempts[1..], last));
  }

  /** One request that is not the last. */
  lemma PullOrRepeat(p: Progress, attempt: Attempt, id: nat, trans: nat, data: Bytes, offset: nat, window: nat, offset': nat)
    requires MidTransfer(p, id, trans, data, offset, window) && AllForeign(attempt.others, id, trans)
    requires offset' == if attempt.call == Answered then offset + window else offset
    requires offset' <= |data|
    ensures MidTransfer(PullBy(p, attempt.others, attempt.call), id, trans, data, offset', window)
    ensures PullBy(p, attempt.others, attempt.call).codes == p.codes + [CodeBefore(attempt.call)]
  {
    if attempt.call == Answered {
      PullMore(p, attempt.others, id, trans, data, offset, window);
    } else {
      UnansweredPullKeepsPlace(p, attempt.others, attempt.call, id, trans, data, offset, window);
    }
  }

  /** From any point of a transfer, any requests may go unanswered and be repeated, any number of times and
      with anything foreign in between: the rest is delivered, and each code is the one expected. */
  lemma {:induction false} RepeatedPullsDeliver(p: Progress, attempts: seq<Attempt>, id: nat, trans: nat, data: Bytes,
                                                offset: nat, window: nat)
    requires MidTransfer(p, id, trans, data, offset, window)
    requires Repeating(attempts, id, trans, RoundsLeft(|data|, offset, window))
    ensures var exact := LastOffset(|data|, offset, window) == |data|;
            && Finished(PullEach(p, attempts), id, trans, data, exact)
            && PullEach(p, attempts).codes == p.codes + CodesOf(attempts, LastCode(exact))
    decreases |attempts|
  {
    var attempt := attempts[0];
    var next := PullBy(p, attempt.others, attempt.call);
    RepeatingRest(attempts, id, trans, RoundsLeft(|data|, offset, window));
    if attempt.call == Answered && offset + window > |data| {
      PullLast(p, attempt.others, id, trans, data, offset, window);
      assert PullEach(next, attempts[1..]) == next;
    } else {
      var offset' := if attempt.call == Answered then offset + window else offset;
      PullOrRepeat(p, attempt, id, trans, data, offset, window, offset');
      RepeatedPullsDeliver(next, attempts[1..], id, trans, data, offset', window);
      CodesInFront(p.codes, attempts, LastCode(LastOffset(|data|, offset, window) == |data|));
    }
  }

  // ----- Requests that are all answered -----

  function Answering(schedule: seq<seq<Step>>): (attempts: seq<Attempt>)
    ensures |attempts| == |schedule|
  {
    if schedule == [] then [] else [Attempt(schedule[0], Answered)] + Answering(schedule[1..])
  }

  lemma {:induction false} AnsweringPulls(p: Progress, schedule: seq<seq<Step>>)
    ensures PullEach(p, Answering(schedule)) == PullAll(p, schedule)
    decreases |schedule|
  {
    if schedule != [] {
      assert Answering(schedule)[1..] == Answering(schedule[1..]);
      AnsweringPulls(Pull(p, schedule[0]), schedule[1..]);
    }
  }

  lemma {:induction false} AnsweringRepeats(schedule: seq<seq<Step>>, id: nat, trans: nat)
    requires Undisturbed(schedule, id, trans) && schedule != []
    ensures Repeating(Answering(schedule), id, trans, |schedule|)
  {
    var attempts, rest := Answering(schedule), schedule[1..];
    assert attempts[1..] == Answering(rest);
    if rest == [] {
      assert AnsweredIn(attempts[1..]) == 0;
    } else {
      assert forall i :: 0 <= i < |rest| ==> rest[i] == schedule[i + 1];
      AnsweringRepeats(rest, id, trans);
      assert forall i :: 0 < i < |attempts| ==> attempts[i] == attempts[1..][i - 1];
    }
  }

  lemma {:induction false} AnsweringCodes(schedule: seq<seq<Step>>, last: nat, k: nat)
    requires schedule != []
    ensures Repeated(GME_MORE_DATA, k) + CodesOf(Answering(schedule), last) == Repeated(GME_MORE_DATA, k + |schedule| - 1) + [last]
    decreases |schedule|
  {
    if |schedule| > 1 {
      AnsweringFront(schedule);
      CodesInFront(Repeated(GME_MORE_DATA, k), Answering(schedule), last);
      OneMoreRepeated(GME_MORE_DATA, k);
      AnsweringCodes(schedule[1..], last, k + 1);
    } else {
      assert CodesOf(Answering(schedule), last) == [last];
    }
  }

  lemma {:induction false} AnsweringFront(schedule: seq<seq<Step>>)
    requires schedule != []
    ensures Answering(schedule)[0].call == Answered && Answering(schedule)[1..] == Answering(schedule[1..])
  {}

  lemma {:induction false} AnsweredPullsDeliver(p: Progress, schedule: seq<seq<Step>>, id: nat, trans: nat, data: Bytes,
                                                offset: nat, window: nat, k: nat)
    requires MidTransfer(p, id, trans, data, offset, window) && p.codes == Repeated(GME_MORE_DATA, k)
    requires Undisturbed(schedule, id, trans) && |schedule| == RoundsLeft(|data|, offset, window)
    ensures Delivered(PullAll(p, schedule), id, trans, data, LastOffset(|data|, offset, window) == |data|, k + |schedule| - 1)
  {
    AnsweringPulls(p, schedule);
    AnsweringRepeats(schedule, id, trans);
    RepeatedPullsDeliver(p, Answering(schedule), id, trans, data, offset, window);
    AnsweringCodes(schedule, LastCode(LastOffset(|data|, offset, window) == |data|), k);
  }

  /** `k` full pieces have been delivered. */
  ghost predicate AtPiece(p: Progress, id: nat, trans: nat, data: Bytes, offset: nat, window: nat, k: nat) {
    MidTransfer(p, id, trans, data, offset, window) && offset == k * window && p.codes == Repeated(GME_MORE_DATA, k)
  }

  lemma {:induction false} PullAllDelivers(p: Progress, schedule: seq<seq<Step>>, id: nat, trans: nat, data: Bytes,
                                           offset: nat, window: nat, k: nat)
    requires AtPiece(p, id, trans, data, offset, window, k) && Undisturbed(schedule, id, trans)
    requires |schedule| == RoundsLeft(|data|, offset, window)
    ensures DeliveredWhole(PullAll(p, schedule), id, trans, data, window)
  {
    AnsweredPullsDeliver(p, schedule, id, trans, data, offset, window, k);
    RoundsAreQuotient(|data|, k, window);
    LastOffsetIsLength(|data|, k, window);
  }

  lemma {:induction false} LastOffsetIsLength(length: nat, k: nat, window: nat)
    requires 0 < window && k * window <= length
    ensures LastOffset(length, k * window, window) == length <==> length % window == 0
    decreases length - k * window
  {
    if k * window + window > length {
      Remainder(length, k, window);
    } else {
      Multiples(window, k + 1, k + 1);
      LastOffsetIsLength(length, k + 1, window);
    }
  }

  lemma Remainder(length: nat, k: nat, window: nat)
    requires 0 < window && k * window <= length < k * window + window
    ensures length % window == length - k * window && length / window == k
  {
    QuotientUnique(length, window, k, length - k * window);
  }

  lemma {:induction false} RoundsAreQuotient(length: nat, k: nat, window: nat)
    requires 0 < window && k * window <= length
    ensures k + RoundsLeft(length, k * window, window) == length / window + 1
    decreases length - k * window
  {
    if k * window + window > length {
      Remainder(length, k, window);
    } else {
      assert (k + 1) * window == k * window + window;
      RoundsAreQuotient(length, k + 1, window);
    }
  }

  /** A reply longer than the window that can be stored, and a schedule of what others do before
      each of the further requests, one for every full window, that does not touch it. */
  ghost predicate Transferable(st: Store, window: nat, s: ServerAnswer, trans: nat, timer: Option<nat>,
                               schedule: seq<seq<Step>>) {
    var reply := Process(st, New(s.data, trans, timer)).1;
    && Good(st) && 0 < window < |s.data| && reply.NewId?
    && Undisturbed(schedule, reply.id, trans) && |schedule| == |s.data| / window
  }

  /** A transferable reply reaches the client byte for byte whatever the others do meanwhile. All
      codes but the last are GME_MORE_DATA. If the window does not divide the length the last
      code is GME_OK and the deletion of the buffer is on its way; if it does, the last request is
      answered GME_UNDEFINED, after everything has arrived, and no deletion is sent. */
  lemma {:induction false} ReplyIsReassembled(st: Store, window: nat, s: ServerAnswer, trans: nat, timer: Option<nat>,
                           schedule: seq<seq<Step>>)
    requires Transferable(st, window, s, trans, timer, schedule)
    ensures DeliveredWhole(PullAll(Begin(st, window, s, trans, timer, Answered), schedule),
                           Process(st, New(s.data, trans, timer)).1.id, trans, s.data, window)
  {
    var id := Process(st, New(s.data, trans, timer)).1.id;
    var p := Begin(st, window, s, trans, timer, Answered);
    TransferBegins(st, window, s, trans, timer);
    assert p.codes == Repeated(GME_MORE_DATA, 1);
    RoundsAreQuotient(|s.data|, 1, window);
    PullAllDelivers(p, schedule, id, trans, s.data, window, window, 1);
  }

  lemma TransferBegins(st: Store, window: nat, s: ServerAnswer, trans: nat, timer: Option<nat>)
    requires Good(st) && 0 < window < |s.data| && Process(st, New(s.data, trans, timer)).1.NewId?
    ensures var p, id := Begin(st, window, s, trans, timer, Answered), Process(st, New(s.data, trans, timer)).1.id;
            MidTransfer(p, id, trans, s.data, window, window) && p.codes == [GME_MORE_DATA]
  {
    var req := New(s.data, trans, timer);
    var (st', reply) := Process(st, req);
    FreshId(st);
    ProcessKeepsGood(st, req);
    assert st'.list[|st.list|] == Stored(reply.id, trans, timer.value, s.data);
  }

  /** A reply longer than the window that can be stored, and undisturbed requests of which one for every
      full window is answered, the last one among them. */
  ghost predicate RepeatedlyTransferable(st: Store, window: nat, s: ServerAnswer, trans: nat, timer: Option<nat>,
                                         attempts: seq<Attempt>) {
    var reply := Process(st, New(s.data, trans, timer)).1;
    && Good(st) && 0 < window < |s.data| && reply.NewId? && Repeating(attempts, reply.id, trans, |s.data| / window)
  }

  /** GME_MORE_DATA for the first reply and every answered request but the last, the reason for every request that
      failed, and at the end this code. */
  ghost predicate AreToldAs(codes: seq<nat>, attempts: seq<Attempt>, last: nat) {
    && |codes| == 1 + |attempts| && codes[0] == GME_MORE_DATA && codes[|attempts|] == last
    && forall i :: 0 <= i < |attempts| - 1 ==>
         if attempts[i].call == Answered then codes[1 + i] == GME_MORE_DATA else Tells(codes[1 + i], attempts[i].call)
  }

  /** Whichever requests go unanswered and are repeated, the reply reaches the client byte for byte; an
      unanswered request costs nothing but its code. */
  lemma {:induction false} ReplySurvivesRepeats(st: Store, window: nat, s: ServerAnswer, trans: nat, timer: Option<nat>,
                                                attempts: seq<Attempt>)
    requires RepeatedlyTransferable(st, window, s, trans, timer, attempts)
    ensures var p := PullEach(Begin(st, window, s, trans, timer, Answered), attempts);
            var exact := |s.data| % window == 0;
            && Finished(p, Process(st, New(s.data, trans, timer)).1.id, trans, s.data, exact)
            && AreToldAs(p.codes, attempts, if exact then GME_UNDEFINED else GME_OK)
  {
    TransferBegins(st, window, s, trans, timer);
    RoundsAreQuotient(|s.data|, 1, window);
    LastOffsetIsLength(|s.data|, 1, window);
    RepeatedPullsDeliver(Begin(st, window, s, trans, timer, Answered), attempts, Process(st, New(s.data, trans, timer)).1.id,
                         trans, s.data, window, window);
    CodesAreTold(attempts, LastCode(|s.data| % window == 0));
  }

  lemma {:induction false} CodesAreTold(attempts: seq<Attempt>, last: nat)
    requires attempts != []
    ensures AreToldAs([GME_MORE_DATA] + CodesOf(attempts, last), attempts, last)
  {
    var codes := [GME_MORE_DATA] + CodesOf(attempts, last);
    CodeAt(attempts, last, |attempts| - 1);
    assert codes[|attempts|] == CodesOf(attempts, last)[|attempts| - 1];
    forall i | 0 <= i < |attempts| - 1
      ensures if attempts[i].call == Answered then codes[1 + i] == GME_MORE_DATA else Tells(codes[1 + i], attempts[i].call)
    {
      CodeAt(attempts, last, i);
      assert codes[1 + i] == CodesOf(attempts, last)[i];
    }
  }

  lemma {:induction false} CodeAt(attempts: seq<Attempt>, last: nat, i: nat)
    requires i < |attempts|
    ensures CodesOf(attempts, last)[i] == if i == |attempts| - 1 then last else CodeBefore(attempts[i].call)
  {
    if i > 0 {
      CodeAt(attempts[1..], last, i - 1);
    }
  }

  /** A long reply can be transferred if its timer was set and fewer than 8191 buffers are stored. */
  lemma {:induction false} ReplyArrivesWhenRoom(st: Store, window: nat, s: ServerAnswer, trans: nat, timer: Option<nat>,
                             schedule: seq<seq<Step>>)
    requires Good(st) && 0 < window < |s.data| && timer.Some? && |st.list| < MAX_ID - 1
    requires Undisturbed(schedule, NextId(Ids(st.list), st.lastId), trans) && |schedule| == |s.data| / window
    ensures PullAll(Begin(st, window, s, trans, timer, Answered), schedule).received == s.data
  {
    StoredWhenRoom(st, s.data, trans, timer);
    ReplyIsReassembled(st, window, s, trans, timer, schedule);
  }

  /** A reply of two bytes pulled byte by byte: everything arrives, the last code is GME_UNDEFINED, and
      the buffer is still there. */
  lemma EvenWindowLeavesBuffer(timer: nat)
    ensures var st, s := Store([], 0), ServerAnswer([7, 8], GME_OK);
            var p := PullAll(Begin(st, 1, s, 0, Some(timer), Answered), [[], []]);
            && p.received == [7, 8] && p.codes == [99, 99, 1] && p.totals == [2, 2, 0]
            && p.deletion == None && Holds(p.st, 1, 0, [7, 8])
  {
    var st, s := Store([], 0), ServerAnswer([7, 8], GME_OK);
    var schedule: seq<seq<Step>> := [[], []];
    assert Process(st, New(s.data, 0, Some(timer))).1 == NewId(1);
    ReplyIsReassembled(st, 1, s, 0, Some(timer), schedule);
    assert Repeated(GME_MORE_DATA, 2) == [GME_MORE_DATA, GME_MORE_DATA];
  }

  // ----- The other ways an interactive request can go -----

  /** A reply that fits the window arrives whole, with the server's own code, and nothing is stored. */
  lemma ShortReplyArrivesWhole(st: Store, window: nat, s: ServerAnswer, trans: nat, timer: Option<nat>, call: Call)
    requires |s.data| <= window
    ensures var p := Begin(st, window, s, trans, timer, call);
            && p.st == st && p.codes == [s.codigo] && p.totals == [0]
            && p.received == (if s.codigo == GME_OK || s.codigo == GME_MORE_DATA then s.data else [])
  {}

  /** A long reply is lost exactly when it is not stored or the router is not told so: the client gets the
      code of that failure and no data, and at most one buffer that nobody knows of is left. */
  lemma UnstoredReplyIsLost(st: Store, window: nat, s: ServerAnswer, trans: nat, timer: Option<nat>, call: Call)
    requires window < |s.data|
    ensures var p := Begin(st, window, s, trans, timer, call);
            var (st', reply) := Process(st, New(s.data, trans, timer));
            && (p.codes == [GME_MORE_DATA] <==> call == Answered && reply.NewId?)
            && (p.codes != [GME_MORE_DATA] ==>
                  && p.received == [] && p.client.indice == 0 && p.totals == [0]
                  && |p.codes| == 1 && Tells(p.codes[0], call)
                  && p.st == (if Arrives(call) then st' else st)
                  && (call == Answered ==> p.st.list == st.list))
  {}

  /** The header documents a window of 0 as "no limit". The code stores the reply, sends it whole
      under GME_MORE_DATA and asks for nothing more, so the stored copy stays behind. */
  lemma ZeroWindowLeavesBuffer(st: Store, s: ServerAnswer, trans: nat, timer: Option<nat>)
    requires Good(st) && s.data != []
    requires Process(st, New(s.data, trans, timer)).1.NewId?
    ensures var p := Begin(st, 0, s, trans, timer, Answered);
            && p.received == s.data && p.codes == [GME_MORE_DATA] && p.totals == [|s.data|] && p.client.indice == 0
            && Holds(p.st, Process(st, New(s.data, trans, timer)).1.id, trans, s.data)
  {
    var (st', reply) := Process(st, New(s.data, trans, timer));
    assert st'.list[|st.list|] == Stored(reply.id, trans, timer.value, s.data);
  }
}
