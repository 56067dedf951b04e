/** Which queues a message goes to: the join of services, servers and running instances
    (gmontdb.cc:210-274), the choice of the least loaded queue (gmt.cc:673-714) and the sending of
    an event to all of them (gmt.cc:600-650). */
module Routing {
  import Common
  import Svc = ServiceTable
  import Srv = ServerTable

  // ----- The join -----

  /** A service slot, a row of its server and a running instance of that server. */
  datatype Hit = Hit(service: nat, server: nat, instance: nat)

  predicate Asked(slots: seq<Svc.Service>, i: nat, servicio: string, tipo: char) {
    i < |slots| && Svc.IsLive(slots[i]) && slots[i].key.servicio == servicio && slots[i].key.tipo == tipo
  }

  predicate Serves(slots: seq<Svc.Service>, rows: seq<Srv.Row>, i: nat, j: nat) {
    i < |slots| && j < |rows| && Srv.IsLive(rows[j]) && slots[i].key.server == rows[j].nombre
  }

  predicate Runs(rows: seq<Srv.Row>, j: nat, k: nat) {
    j < |rows| && k < Srv.INSTANCES && rows[j].cola[k] > 0
  }

  ghost predicate Matches(slots: seq<Svc.Service>, rows: seq<Srv.Row>, servicio: string, tipo: char, h: Hit) {
    Asked(slots, h.service, servicio, tipo) && Serves(slots, rows, h.service, h.server) && Runs(rows, h.server, h.instance)
  }

  /** The first `n` parts of a list, one after the other: what one of the nested loops collects. */
  function Concat(parts: nat -> seq<Hit>, n: nat): seq<Hit> {
    if n == 0 then [] else Concat(parts, n - 1) + parts(n - 1)
  }

  function InstanceParts(rows: seq<Srv.Row>, i: nat, j: nat): nat -> seq<Hit> {
    (k: nat) => if Runs(rows, j, k) then [Hit(i, j, k)] else []
  }

  /** The hits of slot `i` and row `j` among the first `k` instances. */
  function HitsOfRow(rows: seq<Srv.Row>, i: nat, j: nat, k: nat): seq<Hit> {
    Concat(InstanceParts(rows, i, j), k)
  }

  function RowParts(slots: seq<Svc.Service>, rows: seq<Srv.Row>, i: nat): nat -> seq<Hit> {
    (j: nat) => if Serves(slots, rows, i, j) then HitsOfRow(rows, i, j, |rows[j].cola|) else []
  }

  /** The hits of slot `i` among the first `j` rows. */
  function HitsOfSlot(slots: seq<Svc.Service>, rows: seq<Srv.Row>, i: nat, j: nat): seq<Hit> {
    Concat(RowParts(slots, rows, i), j)
  }

  function SlotParts(slots: seq<Svc.Service>, rows: seq<Srv.Row>, servicio: string, tipo: char): nat -> seq<Hit> {
    (i: nat) => if Asked(slots, i, servicio, tipo) then HitsOfSlot(slots, rows, i, |rows|) else []
  }

  /** The hits among the first `i` slots. */
  function Hits(slots: seq<Svc.Service>, rows: seq<Srv.Row>, servicio: string, tipo: char, i: nat): seq<Hit> {
    Concat(SlotParts(slots, rows, servicio, tipo), i)
  }

  function AllHits(slots: seq<Svc.Service>, rows: seq<Srv.Row>, servicio: string, tipo: char): seq<Hit> {
    Hits(slots, rows, servicio, tipo, |slots|)
  }

  function QueueOf(rows: seq<Srv.Row>, h: Hit): int {
    if Runs(rows, h.server, h.instance) then rows[h.server].cola[h.instance] else 0
  }

  function QueuesOf(rows: seq<Srv.Row>, hits: seq<Hit>): seq<int> {
    if hits == [] then [] else [QueueOf(rows, hits[0])] + QueuesOf(rows, hits[1..])
  }

  lemma {:induction false} QueuesAppend(rows: seq<Srv.Row>, a: seq<Hit>, b: seq<Hit>)
    ensures QueuesOf(rows, a + b) == QueuesOf(rows, a) + QueuesOf(rows, b)
  {
    if a == [] {
      assert a + b == b;
    } else {
      assert (a + b)[0] == a[0] && (a + b)[1..] == a[1..] + b;
      QueuesAppend(rows, a[1..], b);
    }
  }

  lemma {:induction false} QueueAt(rows: seq<Srv.Row>, hits: seq<Hit>, n: nat)
    requires n < |hits|
    ensures |QueuesOf(rows, hits)| == |hits| && QueuesOf(rows, hits)[n] == QueueOf(rows, hits[n])
    decreases |hits|
  {
    if |hits| > 1 {
      QueueAt(rows, hits[1..], if n == 0 then 0 else n - 1);
    } else {
      assert QueuesOf(rows, hits[1..]) == [];
    }
  }

  // ----- Every match, once, in order -----

  ghost predicate Before(a: Hit, b: Hit) {
    || a.service < b.service
    || (a.service == b.service && a.server < b.server)
    || (a.service == b.service && a.server == b.server && a.instance < b.instance)
  }

  ghost predicate Ascending(hits: seq<Hit>) {
    forall a, b :: 0 <= a < b < |hits| ==> Before(hits[a], hits[b])
  }

  /** Every hit of part `k` has `k` at its place, and each part is in order. */
  ghost predicate AreParts(parts: nat -> seq<Hit>, place: Hit -> nat) {
    && (forall k, h :: h in parts(k) ==> place(h) == k)
    && (forall k :: Ascending(parts(k)))
  }

  /** Smaller places come first. */
  ghost predicate IsOrder(parts: nat -> seq<Hit>, place: Hit -> nat) {
    forall j, k, x, y :: x in parts(j) && y in parts(k) && place(x) < place(y) ==> Before(x, y)
  }

  lemma InBoth(a: seq<Hit>, b: seq<Hit>, h: Hit)
    ensures h in a + b <==> h in a || h in b
  {}

  /** A hit is in the list exactly when it is in the part of its place. */
  lemma {:induction false} InConcat(parts: nat -> seq<Hit>, place: Hit -> nat, n: nat, h: Hit)
    requires AreParts(parts, place)
    ensures h in Concat(parts, n) <==> place(h) < n && h in parts(place(h))
  {
    if n > 0 {
      InConcat(parts, place, n - 1, h);
      InBoth(Concat(parts, n - 1), parts(n - 1), h);
    }
  }

  lemma AscendingAppend(a: seq<Hit>, b: seq<Hit>)
    requires Ascending(a) && Ascending(b) && forall x, y :: x in a && y in b ==> Before(x, y)
    ensures Ascending(a + b)
  {
    var both := a + b;
    forall i, j | 0 <= i < j < |both| ensures Before(both[i], both[j]) {
      if i < |a| <= j {
        assert a[i] in a && b[j - |a|] in b;
      }
    }
  }

  lemma {:induction false} ConcatAscending(parts: nat -> seq<Hit>, place: Hit -> nat, n: nat)
    requires AreParts(parts, place) && IsOrder(parts, place)
    ensures Ascending(Concat(parts, n))
  {
    if n > 0 {
      ConcatAscending(parts, place, n - 1);
      forall x, y | x in Concat(parts, n - 1) && y in parts(n - 1) ensures Before(x, y) {
        InConcat(parts, place, n - 1, x);
      }
      AscendingAppend(Concat(parts, n - 1), parts(n - 1));
    }
  }

  lemma InstancePartsAreParts(rows: seq<Srv.Row>, i: nat, j: nat)
    ensures AreParts(InstanceParts(rows, i, j), (h: Hit) => h.instance)
    ensures IsOrder(InstanceParts(rows, i, j), (h: Hit) => h.instance)
  {}

  lemma RowHits(rows: seq<Srv.Row>, i: nat, j: nat, k: nat)
    ensures Ascending(HitsOfRow(rows, i, j, k))
    ensures forall h :: h in HitsOfRow(rows, i, j, k) <==> h.service == i && h.server == j && h.instance < k && Runs(rows, j, h.instance)
  {
    var parts, place := InstanceParts(rows, i, j), (h: Hit) => h.instance;
    InstancePartsAreParts(rows, i, j);
    ConcatAscending(parts, place, k);
    forall h: Hit ensures h in Concat(parts, k) <==> h.service == i && h.server == j && h.instance < k && Runs(rows, j, h.instance) {
      InConcat(parts, place, k, h);
    }
  }

  lemma RowPart(slots: seq<Svc.Service>, rows: seq<Srv.Row>, i: nat, j: nat)
    ensures Ascending(RowParts(slots, rows, i)(j))
    ensures forall h :: h in RowParts(slots, rows, i)(j) <==>
              h.service == i && h.server == j && Serves(slots, rows, i, j) && Runs(rows, j, h.instance)
  {
    if Serves(slots, rows, i, j) {
      RowHits(rows, i, j, |rows[j].cola|);
    }
  }

  lemma SlotHits(slots: seq<Svc.Service>, rows: seq<Srv.Row>, i: nat, j: nat)
    ensures Ascending(HitsOfSlot(slots, rows, i, j))
    ensures forall h :: h in HitsOfSlot(slots, rows, i, j) <==>
              h.service == i && h.server < j && Serves(slots, rows, i, h.server) && Runs(rows, h.server, h.instance)
  {
    var parts, place := RowParts(slots, rows, i), (h: Hit) => h.server;
    forall k ensures Ascending(parts(k)) && forall h :: h in parts(k) ==> place(h) == k && h.service == i {
      RowPart(slots, rows, i, k);
    }
    ConcatAscending(parts, place, j);
    forall h: Hit ensures h in Concat(parts, j) <==>
              h.service == i && h.server < j && Serves(slots, rows, i, h.server) && Runs(rows, h.server, h.instance) {
      InConcat(parts, place, j, h);
      RowPart(slots, rows, i, h.server);
    }
  }

  lemma SlotPart(slots: seq<Svc.Service>, rows: seq<Srv.Row>, servicio: string, tipo: char, i: nat)
    ensures Ascending(SlotParts(slots, rows, servicio, tipo)(i))
    ensures forall h :: h in SlotParts(slots, rows, servicio, tipo)(i) <==> h.service == i && Matches(slots, rows, servicio, tipo, h)
  {
    SlotHits(slots, rows, i, |rows|);
  }

  lemma SlotPartsAreParts(slots: seq<Svc.Service>, rows: seq<Srv.Row>, servicio: string, tipo: char)
    ensures AreParts(SlotParts(slots, rows, servicio, tipo), (h: Hit) => h.service)
  {
    var parts := SlotParts(slots, rows, servicio, tipo);
    forall k ensures Ascending(parts(k)) && forall h :: h in parts(k) ==> h.service == k {
      SlotPart(slots, rows, servicio, tipo, k);
    }
  }

  /** The list of queues is the relational join: it has one entry for every matching slot, row and
      instance, in that order, and no other entry; each entry is the queue of its instance. */
  lemma {:induction false} JoinIsExact(slots: seq<Svc.Service>, rows: seq<Srv.Row>, servicio: string, tipo: char)
    ensures var hits := AllHits(slots, rows, servicio, tipo);
            var queues := QueuesOf(rows, hits);
            && Ascending(hits)
            && (forall h :: h in hits <==> Matches(slots, rows, servicio, tipo, h))
            && |queues| == |hits|
            && forall n :: 0 <= n < |hits| ==> queues[n] == QueueOf(rows, hits[n]) > 0
  {
    var hits := AllHits(slots, rows, servicio, tipo);
    var parts, place := SlotParts(slots, rows, servicio, tipo), (h: Hit) => h.service;
    SlotPartsAreParts(slots, rows, servicio, tipo);
    ConcatAscending(parts, place, |slots|);
    forall h ensures h in hits <==> Matches(slots, rows, servicio, tipo, h) {
      InConcat(parts, place, |slots|, h);
      SlotPart(slots, rows, servicio, tipo, h.service);
    }
    if hits == [] {
    } else {
      QueueAt(rows, hits, 0);
    }
    forall n | 0 <= n < |hits| ensures QueuesOf(rows, hits)[n] == QueueOf(rows, hits[n]) > 0 {
      QueueAt(rows, hits, n);
      assert hits[n] in hits;
    }
  }

  /** With distinct service keys no instance is listed twice. */
  lemma EachInstanceOnce(slots: seq<Svc.Service>, rows: seq<Srv.Row>, servicio: string, tipo: char, a: nat, b: nat)
    requires Svc.DistinctKeys(slots)
    requires a < b < |AllHits(slots, rows, servicio, tipo)|
    ensures var hits := AllHits(slots, rows, servicio, tipo);
            hits[a].server != hits[b].server || hits[a].instance != hits[b].instance
  {
    var hits := AllHits(slots, rows, servicio, tipo);
    JoinIsExact(slots, rows, servicio, tipo);
    assert hits[a] in hits && hits[b] in hits;
    assert Before(hits[a], hits[b]);
    if hits[a].server == hits[b].server {
      assert slots[hits[a].service].key == slots[hits[b].service].key;
    }
  }

  // ----- The least loaded queue -----

  /** The queue looked at in step `m`, starting from `start`. */
  function Probe(start: nat, n: nat, m: nat): nat {
    if start + m >= n then start + m - n else start + m
  }

  /** The candidate after `m` further steps; a queue that does not answer has a negative length. */
  function Candidate(loads: seq<int>, start: nat, m: nat): (c: nat)
    requires start < |loads| && m < |loads|
    ensures c < |loads|
  {
    if m == 0 then start
    else
      var c, p := Candidate(loads, start, m - 1), Probe(start, |loads|, m);
      if 0 <= loads[p] < loads[c] then p else c
  }

  function Probes(start: nat, n: nat, m: nat): seq<nat> {
    if m == 0 then [] else Probes(start, n, m - 1) + [Probe(start, n, m - 1)]
  }

  /** Every queue is looked at exactly once. */
  lemma {:induction false} EachQueueProbedOnce(start: nat, n: nat, m: nat)
    requires start < n && m <= n
    ensures |Probes(start, n, m)| == m
    ensures forall a :: 0 <= a < m ==> Probes(start, n, m)[a] == Probe(start, n, a) < n
    ensures forall a, b :: 0 <= a < b < m ==> Probes(start, n, m)[a] != Probes(start, n, m)[b]
    ensures m == n ==> forall q :: 0 <= q < n ==> q in Probes(start, n, m)
  {
    if m > 0 {
      EachQueueProbedOnce(start, n, m - 1);
    }
    if m == n {
      forall q | 0 <= q < n ensures q in Probes(start, n, m) {
        assert Probes(start, n, m)[if q >= start then q - start else q + n - start] == q;
      }
    }
  }

  /** They are looked at in rotation: one queue on at every step, and round from the last to the first. */
  lemma {:induction false} ProbesRotate(start: nat, n: nat, m: nat, a: nat)
    requires start < n && a < m <= n
    ensures |Probes(start, n, m)| == m && Probes(start, n, m)[a] == (start + a) % n
  {
    EachQueueProbedOnce(start, n, m);
    ProbeRotates(start, n, a);
  }

  lemma ProbeRotates(start: nat, n: nat, a: nat)
    requires start < n && a < n
    ensures Probe(start, n, a) == (start + a) % n
  {
    if start + a < n {
      Common.QuotientUnique(start + a, n, 0, start + a);
    } else {
      Common.QuotientUnique(start + a, n, 1, start + a - n);
    }
  }

  /** Of the first `m` + 1 queues looked at, `c` is the one of step `at`; it answers, none has a
      smaller load, and none before it has the same. */
  ghost predicate IsFirstLeast(loads: seq<int>, start: nat, m: nat, c: nat, at: nat)
    requires start < |loads| && m < |loads|
  {
    && at <= m && Probe(start, |loads|, at) == c && loads[c] >= 0
    && forall a :: 0 <= a <= m && loads[Probe(start, |loads|, a)] >= 0 ==>
         loads[c] <= loads[Probe(start, |loads|, a)] && (a < at ==> loads[c] < loads[Probe(start, |loads|, a)])
  }

  /** If the first queue answers, the choice is the first in the order of probing among those with
      the least load. */
  lemma {:induction false} FirstLeast(loads: seq<int>, start: nat, m: nat) returns (at: nat)
    requires start < |loads| && m < |loads| && loads[start] >= 0
    ensures IsFirstLeast(loads, start, m, Candidate(loads, start, m), at)
  {
    if m == 0 {
      at := 0;
    } else {
      at := FirstLeast(loads, start, m - 1);
      if Candidate(loads, start, m) != Candidate(loads, start, m - 1) {
        at := m;
      }
    }
  }

  lemma {:induction false} StuckOnFirst(loads: seq<int>, start: nat, m: nat)
    requires start < |loads| && m < |loads| && loads[start] < 0
    ensures Candidate(loads, start, m) == start
  {
    if m > 0 {
      StuckOnFirst(loads, start, m - 1);
    }
  }

  ghost predicate IsLeastLoaded(loads: seq<int>, c: nat) {
    c < |loads| && forall q :: 0 <= q < |loads| && loads[q] >= 0 ==> 0 <= loads[c] <= loads[q]
  }

  lemma ProbeReaches(start: nat, n: nat, q: nat) returns (a: nat)
    requires start < n && q < n
    ensures a < n && Probe(start, n, a) == q
  {
    a := if q >= start then q - start else q + n - start;
  }

  lemma FirstLeastIsLeast(loads: seq<int>, start: nat, c: nat, at: nat)
    requires start < |loads| && c < |loads| && IsFirstLeast(loads, start, |loads| - 1, c, at)
    ensures IsLeastLoaded(loads, c)
  {
    forall q | 0 <= q < |loads| && loads[q] >= 0 ensures 0 <= loads[c] <= loads[q] {
      var a := ProbeReaches(start, |loads|, q);
      assert loads[Probe(start, |loads|, a)] >= 0;
    }
  }

  /** The choice is a least loaded queue exactly when the first one looked at answers, or none does. */
  lemma {:induction false} LeastLoadedWhenFirstAnswers(loads: seq<int>, start: nat)
    requires start < |loads|
    ensures IsLeastLoaded(loads, Candidate(loads, start, |loads| - 1)) <==>
            loads[start] >= 0 || forall q :: 0 <= q < |loads| ==> loads[q] < 0
  {
    if loads[start] >= 0 {
      var at := FirstLeast(loads, start, |loads| - 1);
      FirstLeastIsLeast(loads, start, Candidate(loads, start, |loads| - 1), at);
    } else {
      StuckOnFirst(loads, start, |loads| - 1);
    }
  }

  /** The first of two queues does not answer and the second is empty: the first is chosen. */
  lemma SilentFirstQueue()
    ensures Candidate([-1, 0], 0, 1) == 0 && !IsLeastLoaded([-1, 0], 0)
  {
    StuckOnFirst([-1, 0], 0, 1);
    assert [-1, 0][1] == 0;
  }

  /** `loads[i]` is what the queue system answers about `queues[i]`, negative if it fails. */
  method SelectQueue(queues: seq<int>, loads: seq<int>, pid: nat) returns (queue: int, probes: seq<nat>)
    requires |loads| == |queues|
    ensures |queues| == 0 ==> queue == -1 && probes == []
    ensures |queues| == 1 ==> queue == queues[0] && probes == []
    ensures |queues| > 1 ==> var start := pid % |queues|;
              && queue == queues[Candidate(loads, start, |queues| - 1)]
              && probes == Probes(start, |queues|, |queues|)
  {
    probes := [];
    var vlen := |queues|;
    if vlen == 0 {
      return -1, probes;
    }
    if vlen > 1 {
      var qi := pid % vlen;
      ghost var start := qi;
      queue := queues[qi];
      var candidateQlen := loads[qi];
      probes := [qi];
      assert Probes(start, vlen, 1) == Probes(start, vlen, 0) + [start];
      for i := 1 to vlen
        invariant qi == Probe(start, vlen, i - 1) < vlen
        invariant queue == queues[Candidate(loads, start, i - 1)]
        invariant candidateQlen == loads[Candidate(loads, start, i - 1)]
        invariant probes == Probes(start, vlen, i)
      {
        qi := qi + 1;
        if qi >= vlen {
          qi := 0;
        }
        var qlen := loads[qi];
        probes := probes + [qi];
        if qlen >= 0 && qlen < candidateQlen {
          queue := queues[qi];
          candidateQlen := qlen;
        }
      }
    } else {
      queue := queues[0];
    }
  }

  // ----- Events -----

  datatype Status = Sent | NotFound

  function DeliveredIf(queue: int, fork: bool): seq<int> {
    if fork then [queue] else []
  }

  /** An event is sent through one process per queue; `forks[n]` says whether the process for queue
      `n` could be made. */
  function Delivered(queues: seq<int>, forks: seq<bool>): seq<int>
    requires |forks| == |queues|
    decreases |queues|
  {
    if queues == [] then [] else DeliveredIf(queues[0], forks[0]) + Delivered(queues[1..], forks[1..])
  }

  /** The processes that could be made, in order. */
  ghost predicate ArePositions(forks: seq<bool>, at: seq<nat>) {
    && (forall j :: 0 <= j < |at| ==> at[j] < |forks| && forks[at[j]])
    && (forall i, j :: 0 <= i < j < |at| ==> at[i] < at[j])
    && (forall n :: 0 <= n < |forks| && forks[n] ==> n in at)
  }

  lemma PositionsMore(forks: seq<bool>, at: seq<nat>, last: bool)
    requires ArePositions(forks, at)
    ensures ArePositions(forks + [last], at + if last then [|forks|] else [])
  {
    var more := at + if last then [|forks|] else [];
    assert forall n :: n in at ==> n in more;
    assert last ==> more[|at|] == |forks|;
  }

  /** What was sent are the queues at these positions. */
  ghost predicate AreSent(queues: seq<int>, at: seq<nat>, sent: seq<int>) {
    |sent| == |at| && forall j :: 0 <= j < |at| ==> at[j] < |queues| && sent[j] == queues[at[j]]
  }

  lemma SentMore(queues: seq<int>, at: seq<nat>, sent: seq<int>, q: int, f: bool)
    requires AreSent(queues, at, sent)
    ensures AreSent(queues + [q], at + if f then [|queues|] else [], sent + DeliveredIf(q, f))
  {
    assert (queues + [q])[|queues|] == q;
  }

  /** Whatever processes could be made, the event goes to exactly the queues of those, in order. */
  lemma {:induction false} DeliveredAt(queues: seq<int>, forks: seq<bool>) returns (at: seq<nat>)
    requires |forks| == |queues|
    ensures ArePositions(forks, at) && AreSent(queues, at, Delivered(queues, forks))
    decreases |queues|
  {
    if queues == [] {
      at := [];
    } else {
      var n := |queues| - 1;
      var init := DeliveredAt(queues[..n], forks[..n]);
      PositionsMore(forks[..n], init, forks[n]);
      SentMore(queues[..n], init, Delivered(queues[..n], forks[..n]), queues[n], forks[n]);
      DeliveredAppend(queues[..n], forks[..n], queues[n], forks[n]);
      assert queues == queues[..n] + [queues[n]] && forks == forks[..n] + [forks[n]];
      at := init + if forks[n] then [n] else [];
    }
  }

  /** An event goes to all its queues exactly when all processes could be made. */
  lemma {:induction false} DeliveredToAll(queues: seq<int>, forks: seq<bool>)
    requires |forks| == |queues|
    ensures |Delivered(queues, forks)| <= |queues|
    ensures Delivered(queues, forks) == queues <==> forall n :: 0 <= n < |forks| ==> forks[n]
    decreases |queues|
  {
    if queues == [] {
    } else {
      DeliveredToAll(queues[1..], forks[1..]);
      assert forall n :: 0 <= n < |forks[1..]| ==> forks[1..][n] == forks[n + 1];
      if forks[0] {
        assert Delivered(queues, forks)[1..] == Delivered(queues[1..], forks[1..]);
        assert queues == [queues[0]] + queues[1..];
      }
    }
  }

  lemma {:induction false} DeliveredFront(q: int, f: bool, queues: seq<int>, forks: seq<bool>)
    requires |forks| == |queues|
    ensures Delivered([q] + queues, [f] + forks) == DeliveredIf(q, f) + Delivered(queues, forks)
  {
    assert ([q] + queues)[1..] == queues && ([f] + forks)[1..] == forks;
  }

  lemma {:induction false} DeliveredAppend(queues: seq<int>, forks: seq<bool>, q: int, f: bool)
    requires |forks| == |queues|
    ensures Delivered(queues + [q], forks + [f]) == Delivered(queues, forks) + DeliveredIf(q, f)
    decreases |queues|
  {
    if queues == [] {
      DeliveredFront(q, f, [], []);
      assert [] + [q] == [q] + [] && [] + [f] == [f] + [];
    } else {
      var queues', forks' := queues[1..], forks[1..];
      DeliveredAppend(queues', forks', q, f);
      DeliveredFront(queues[0], forks[0], queues' + [q], forks' + [f]);
      DeliveredFront(queues[0], forks[0], queues', forks');
      assert queues + [q] == [queues[0]] + (queues' + [q]) && forks + [f] == [forks[0]] + (forks' + [f]);
      assert queues == [queues[0]] + queues' && forks == [forks[0]] + forks';
      Common.Associate(DeliveredIf(queues[0], forks[0]), Delivered(queues', forks'), DeliveredIf(q, f));
    }
  }

  lemma {:induction false} DeliveredMore(queues: seq<int>, forks: seq<bool>, n: nat)
    requires |forks| == |queues| && n < |queues|
    ensures Delivered(queues[..n + 1], forks[..n + 1]) == Delivered(queues[..n], forks[..n]) + DeliveredIf(queues[n], forks[n])
  {
    DeliveredAppend(queues[..n], forks[..n], queues[n], forks[n]);
    assert queues[..n + 1] == queues[..n] + [queues[n]] && forks[..n + 1] == forks[..n] + [forks[n]];
  }

  method SendEvent(queues: seq<int>, forks: seq<bool>) returns (status: Status, sent: seq<int>)
    requires |forks| == |queues|
    ensures status == if queues == [] then NotFound else Sent
    ensures sent == Delivered(queues, forks)
  {
    sent := [];
    if |queues| == 0 {
      return NotFound, sent;
    }
    for n := 0 to |queues|
      invariant sent == Delivered(queues[..n], forks[..n])
    {
      DeliveredMore(queues, forks, n);
      if forks[n] {
        sent := sent + [queues[n]];
      }
    }
    assert queues[..|queues|] == queues && forks[..|forks|] == forks;
    status := Sent;
  }
}
