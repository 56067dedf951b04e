/** What holds in every state that the registry can reach: who is subscribed, which queue each instance has, and
    where events and requests therefore go. */
module RegistryTheorems {
  import opened Common
  import opened Strings
  import Svc = ServiceTable
  import Srv = ServerTable
  import ServerTheorems
  import opened Routing
  import opened Registry

  // ----- What every run keeps -----

  lemma StepKeepsGood(st: State, op: Op)
    requires Good(st) && Proper(op)
    ensures Good(Step(st, op)) && |Step(st, op).rows| == |st.rows| && |Step(st, op).slots| == |st.slots|
  {
    match op
    case Load(text) => Srv.LoadedGood(st.rows, text);
    case Enter(nombre, pid, cola, qid, indice) => Srv.RegisteredGood(st.rows, nombre, pid, cola, qid, indice);
    case Leave(nombre, indice) => Srv.RegisteredGood(st.rows, nombre, 0, 0, 0, indice);
    case Table(op) => Svc.StepRefinesBag(st.slots, op);
  }

  lemma {:induction false} RunKeepsGood(st: State, ops: seq<Op>)
    requires Good(st) && forall i :: 0 <= i < |ops| ==> Proper(ops[i])
    ensures var last := Run(st, ops);
            Good(last) && |last.rows| == |st.rows| && |last.slots| == |st.slots|
    decreases |ops|
  {
    if ops != [] {
      StepKeepsGood(st, ops[0]);
      RunKeepsGood(Step(st, ops[0]), ops[1..]);
    }
  }

  // ----- Who is subscribed -----

  /** The operations of a run on the table of services. */
  function TableOps(ops: seq<Op>): seq<Svc.Op> {
    if ops == [] then [] else (if ops[0].Table? then [ops[0].op] else []) + TableOps(ops[1..])
  }

  lemma {:induction false} TableOpsFit(ops: seq<Op>, i: nat)
    requires (forall j :: 0 <= j < |ops| ==> Proper(ops[j])) && i < |TableOps(ops)|
    ensures Svc.Fits(TableOps(ops)[i].key)
    decreases |ops|
  {
    if !ops[0].Table? {
      TableOpsFit(ops[1..], i);
    } else if i > 0 {
      TableOpsFit(ops[1..], i - 1);
    }
  }

  lemma {:induction false} SlotsOfRun(st: State, ops: seq<Op>)
    requires forall i :: 0 <= i < |ops| ==> Proper(ops[i])
    ensures Run(st, ops).slots == Svc.Run(st.slots, TableOps(ops)).0
    decreases |ops|
  {
    if ops != [] {
      SlotsOfRun(Step(st, ops[0]), ops[1..]);
      if ops[0].Table? {
        assert TableOps(ops)[1..] == TableOps(ops[1..]);
      } else {
        assert TableOps(ops) == TableOps(ops[1..]);
      }
    }
  }

  /** The key was subscribed more often than cancelled, counting the calls that succeeded. */
  ghost predicate Subscribed(start: State, ops: seq<Op>, key: Svc.Key) {
    Svc.Net(TableOps(ops), Svc.Run(start.slots, TableOps(ops)).1, key) > 0
  }

  lemma {:induction false} SubscribedHasSlot(start: State, ops: seq<Op>, key: Svc.Key)
    requires Empty(start) && forall i :: 0 <= i < |ops| ==> Proper(ops[i])
    ensures Subscribed(start, ops, key) <==> Svc.SlotOf(Run(start, ops).slots, key) < |Run(start, ops).slots|
  {
    forall i | 0 <= i < |TableOps(ops)| ensures Svc.Fits(TableOps(ops)[i].key) {
      TableOpsFit(ops, i);
    }
    SlotsOfRun(start, ops);
    Svc.CountIsNet(start.slots, TableOps(ops), key);
  }

  // ----- Which numbers an instance has -----

  /** Process, queue key and queue id of one instance of a server; zeros if the server is not known. */
  datatype Instance = Instance(pid: int, cola: int, qid: int)

  const NONE: Instance := Instance(0, 0, 0)

  function InstanceAt(rows: seq<Srv.Row>, nombre: string, k: nat): Instance {
    var i := Srv.RowOf(rows, nombre);
    if i == |rows| || k >= Srv.INSTANCES then NONE else Instance(rows[i].pid[k], rows[i].cola[k], rows[i].qid[k])
  }

  /** Registering succeeds exactly for a known server and an index from 0 to 254. It puts these three numbers in
      that place, and no instance of any server has other numbers than before; if it fails nothing changes. */
  lemma RegisteredStores(rows: seq<Srv.Row>, nombre: string, pid: int, cola: int, qid: int, indice: int, other: string, k: nat)
    requires indice != Srv.INSTANCES
    ensures var (next, rc) := Srv.Registered(rows, nombre, pid, cola, qid, indice);
            && (rc == 0 <==> 0 <= indice < 255 && Srv.Find(rows, nombre).Some?)
            && (rc != 0 ==> rc == -1 && next == rows)
            && InstanceAt(next, other, k) == if rc == 0 && other == nombre && k == indice then Instance(pid, cola, qid)
                                             else InstanceAt(rows, other, k)
  {
    Srv.SameNames(rows, Srv.Registered(rows, nombre, pid, cola, qid, indice).0, other);
  }

  /** Entering a record keeps the instances of a known server, and a new one starts without any. */
  lemma AddedKeepsInstances(rows: seq<Srv.Row>, t: Srv.Server, nombre: string, k: nat)
    requires Srv.Good(rows) && |t.nombre| <= Srv.NAME_WIDTH
    ensures InstanceAt(Srv.Added(rows, t).0, nombre, k) == InstanceAt(rows, nombre, k)
  {
    var next := Srv.Added(rows, t).0;
    if Srv.RowOf(rows, t.nombre) < |rows| {
      Srv.SameNames(rows, next, nombre);
    } else if Srv.FirstHole(rows) < |rows| {
      NewRowFound(rows, Srv.FirstHole(rows), next, nombre);
    }
  }

  lemma NewRowFound(rows: seq<Srv.Row>, hole: nat, next: seq<Srv.Row>, nombre: string)
    requires hole < |rows| && !Srv.IsLive(rows[hole]) && |next| == |rows| && next == rows[hole := next[hole]]
    requires Srv.RowOf(rows, next[hole].nombre) == |rows|
    ensures Srv.RowOf(next, nombre) == if Srv.IsLive(next[hole]) && nombre == next[hole].nombre then hole else Srv.RowOf(rows, nombre)
  {
    var i, j := Srv.RowOf(rows, nombre), Srv.RowOf(next, nombre);
    assert forall n :: 0 <= n < |rows| && n != hole ==> next[n] == rows[n];
    if Srv.IsLive(next[hole]) && nombre == next[hole].nombre {
      assert i == |rows|;
    } else {
      assert i < |rows| ==> i != hole;
      assert j < |rows| ==> j != hole;
    }
  }

  lemma {:induction false} LoadedKeepsInstances(rows: seq<Srv.Row>, lines: seq<string>, nombre: string, k: nat)
    requires Srv.Good(rows) && Srv.ShortNames(lines) && forall i :: 0 <= i < |lines| ==> '\n' !in lines[i]
    ensures InstanceAt(Srv.LoadedLines(rows, lines).0, nombre, k) == InstanceAt(rows, nombre, k)
    decreases |lines|
  {
    if lines == [] || (!Srv.IsComment(lines[0]) && Srv.Parsed(lines[0]).None?) {
    } else if Srv.IsComment(lines[0]) {
      LoadedKeepsInstances(rows, lines[1..], nombre, k);
    } else {
      var t := Srv.Parsed(lines[0]).value;
      Srv.ParsedIsClean(lines[0]);
      Srv.AddedGood(rows, t);
      AddedKeepsInstances(rows, t, nombre, k);
      LoadedKeepsInstances(Srv.Added(rows, t).0, lines[1..], nombre, k);
    }
  }

  /** What one operation makes of the numbers of an instance: a successful registration gives it new ones, leaving
      takes them away, and nothing else touches them. */
  function Renumbered(st: State, op: Op, nombre: string, k: nat, before: Instance): Instance {
    match op
    case Enter(entered, pid, cola, qid, indice) =>
      if entered == nombre && indice == k < 255 && Srv.Find(st.rows, nombre).Some? then Instance(pid, cola, qid) else before
    case Leave(left, indice) =>
      if left == nombre && indice == k < 255 && Srv.Find(st.rows, nombre).Some? then Instance(0, 0, 0) else before
    case _ => before
  }

  lemma StepRenumbers(st: State, op: Op, nombre: string, k: nat)
    requires Good(st) && Proper(op)
    ensures InstanceAt(Step(st, op).rows, nombre, k) == Renumbered(st, op, nombre, k, InstanceAt(st.rows, nombre, k))
  {
    match op
    case Load(text) =>
      Srv.LinesHaveNoBreak(text);
      LoadedKeepsInstances(st.rows, Srv.Lines(text), nombre, k);
    case Enter(entered, pid, cola, qid, indice) => RegisteredStores(st.rows, entered, pid, cola, qid, indice, nombre, k);
    case Leave(left, indice) => RegisteredStores(st.rows, left, 0, 0, 0, indice, nombre, k);
    case Table(_) =>
  }

  /** The numbers of the last successful registration of an instance after which it did not leave. */
  ghost function LastEntered(st: State, ops: seq<Op>, nombre: string, k: nat, before: Instance): Instance
    requires forall i :: 0 <= i < |ops| ==> Proper(ops[i])
    decreases |ops|
  {
    if ops == [] then before
    else LastEntered(Step(st, ops[0]), ops[1..], nombre, k, Renumbered(st, ops[0], nombre, k, before))
  }

  lemma {:induction false} InstancesOverRun(st: State, ops: seq<Op>, nombre: string, k: nat)
    requires Good(st) && forall i :: 0 <= i < |ops| ==> Proper(ops[i])
    ensures InstanceAt(Run(st, ops).rows, nombre, k) == LastEntered(st, ops, nombre, k, InstanceAt(st.rows, nombre, k))
    decreases |ops|
  {
    if ops != [] {
      StepKeepsGood(st, ops[0]);
      StepRenumbers(st, ops[0], nombre, k);
      InstancesOverRun(Step(st, ops[0]), ops[1..], nombre, k);
    }
  }

  /** In every state that an empty registry reaches, an instance has the numbers of its last successful registration,
      and zeros if there was none or it has left since. */
  lemma {:induction false} InstanceOfRun(start: State, ops: seq<Op>, nombre: string, k: nat)
    requires Empty(start) && forall i :: 0 <= i < |ops| ==> Proper(ops[i])
    ensures InstanceAt(Run(start, ops).rows, nombre, k) == LastEntered(start, ops, nombre, k, NONE)
  {
    InstancesOverRun(start, ops, nombre, k);
    assert Srv.RowOf(start.rows, nombre) == |start.rows|;
  }

  lemma RowIsFound(rows: seq<Srv.Row>, j: nat, k: nat)
    requires Srv.Good(rows) && j < |rows| && Srv.IsLive(rows[j])
    ensures Srv.RowOf(rows, rows[j].nombre) == j
    ensures k < Srv.INSTANCES ==> InstanceAt(rows, rows[j].nombre, k).cola == rows[j].cola[k]
    ensures Runs(rows, j, k) <==> InstanceAt(rows, rows[j].nombre, k).cola > 0
  {}

  // ----- Where events go -----

  /** In every state that an empty registry reaches, the queues of a service are those with which the instances of
      its servers were last registered, unless they have left, one entry for each instance; its servers are those
      that have subscribed to it more often than they have cancelled. */
  lemma {:induction false} EveryEventReachesEachInstanceOnce(start: State, ops: seq<Op>, servicio: string, tipo: char, server: nat, instance: nat)
    requires Empty(start) && forall i :: 0 <= i < |ops| ==> Proper(ops[i])
    ensures var st := Run(start, ops);
            var hits := AllHits(st.slots, st.rows, servicio, tipo);
            && |QueuesOf(st.rows, hits)| == |hits|
            && (forall n :: 0 <= n < |hits| ==> HasItsQueue(start, ops, st.rows, hits[n], QueuesOf(st.rows, hits)[n]))
            && (forall a, b :: 0 <= a < b < |hits| ==> hits[a].server != hits[b].server || hits[a].instance != hits[b].instance)
            && ((exists n :: 0 <= n < |hits| && hits[n].server == server && hits[n].instance == instance) <==>
                server < |st.rows| && Srv.IsLive(st.rows[server]) &&
                LastEntered(start, ops, st.rows[server].nombre, instance, NONE).cola > 0 &&
                Subscribed(start, ops, Svc.Key(servicio, tipo, st.rows[server].nombre)))
  {
    var st := Run(start, ops);
    var hits := AllHits(st.slots, st.rows, servicio, tipo);
    RunKeepsGood(start, ops);
    JoinIsExact(st.slots, st.rows, servicio, tipo);
    forall a, b | 0 <= a < b < |hits| ensures hits[a].server != hits[b].server || hits[a].instance != hits[b].instance {
      EachInstanceOnce(st.slots, st.rows, servicio, tipo, a, b);
    }
    forall n | 0 <= n < |hits| ensures HasItsQueue(start, ops, st.rows, hits[n], QueuesOf(st.rows, hits)[n]) {
      assert hits[n] in hits;
      RowIsFound(st.rows, hits[n].server, hits[n].instance);
      InstanceOfRun(start, ops, st.rows[hits[n].server].nombre, hits[n].instance);
    }
    WhoIsHit(start, ops, servicio, tipo, server, instance);
  }

  /** The queue is the one with which that instance was last registered. */
  ghost predicate HasItsQueue(start: State, ops: seq<Op>, rows: seq<Srv.Row>, h: Hit, queue: int)
    requires forall i :: 0 <= i < |ops| ==> Proper(ops[i])
  {
    && h.server < |rows| && Srv.IsLive(rows[h.server])
    && queue == LastEntered(start, ops, rows[h.server].nombre, h.instance, NONE).cola > 0
  }

  lemma {:induction false} WhoIsHit(start: State, ops: seq<Op>, servicio: string, tipo: char, server: nat, instance: nat)
    requires Empty(start) && forall i :: 0 <= i < |ops| ==> Proper(ops[i])
    ensures var st := Run(start, ops);
            var hits := AllHits(st.slots, st.rows, servicio, tipo);
            (exists n :: 0 <= n < |hits| && hits[n].server == server && hits[n].instance == instance) <==>
            server < |st.rows| && Srv.IsLive(st.rows[server]) &&
            LastEntered(start, ops, st.rows[server].nombre, instance, NONE).cola > 0 &&
            Subscribed(start, ops, Svc.Key(servicio, tipo, st.rows[server].nombre))
  {
    var st := Run(start, ops);
    var hits := AllHits(st.slots, st.rows, servicio, tipo);
    RunKeepsGood(start, ops);
    if server < |st.rows| && Srv.IsLive(st.rows[server]) {
      RowIsFound(st.rows, server, instance);
      InstanceOfRun(start, ops, st.rows[server].nombre, instance);
      if Runs(st.rows, server, instance) {
        SubscribedHasSlot(start, ops, Svc.Key(servicio, tipo, st.rows[server].nombre));
        HitExists(st, servicio, tipo, server, instance);
      }
    }
    JoinIsExact(st.slots, st.rows, servicio, tipo);
    forall n | 0 <= n < |hits| && hits[n].server == server && hits[n].instance == instance
      ensures Runs(st.rows, server, instance) && Srv.IsLive(st.rows[server])
    {
      assert hits[n] in hits;
    }
  }

  /** A running instance is hit exactly when its server has a slot for the service. */
  lemma HitExists(st: State, servicio: string, tipo: char, server: nat, instance: nat)
    requires Good(st) && Runs(st.rows, server, instance) && Srv.IsLive(st.rows[server])
    ensures var hits := AllHits(st.slots, st.rows, servicio, tipo);
            (exists n :: 0 <= n < |hits| && hits[n].server == server && hits[n].instance == instance) <==>
            Svc.SlotOf(st.slots, Svc.Key(servicio, tipo, st.rows[server].nombre)) < |st.slots|
  {
    var hits := AllHits(st.slots, st.rows, servicio, tipo);
    var i := Svc.SlotOf(st.slots, Svc.Key(servicio, tipo, st.rows[server].nombre));
    JoinIsExact(st.slots, st.rows, servicio, tipo);
    if i < |st.slots| {
      assert Matches(st.slots, st.rows, servicio, tipo, Hit(i, server, instance));
      assert Hit(i, server, instance) in hits;
    }
    forall n | 0 <= n < |hits| && hits[n].server == server && hits[n].instance == instance ensures i < |st.slots| {
      assert hits[n] in hits;
    }
  }

  /** Every table that an empty registry reaches survives saving: reloading it changes nothing, and
      loading it into an empty table gives the same answers. */
  lemma {:induction false} EveryTableSurvivesSaving(start: State, ops: seq<Op>, empty: seq<Srv.Row>)
    requires Empty(start) && forall i :: 0 <= i < |ops| ==> Proper(ops[i])
    requires |empty| == |start.rows| && Srv.NoneLive(empty)
    ensures var rows := Run(start, ops).rows;
            var text := Srv.Saved(rows);
            && Srv.Loaded(rows, text) == (rows, 0)
            && Srv.Loaded(empty, text).1 == 0
            && forall nombre :: Srv.Find(Srv.Loaded(empty, text).0, nombre) == Srv.Find(rows, nombre)
  {
    RunKeepsGood(start, ops);
    ServerTheorems.ReloadChangesNothing(Run(start, ops).rows);
    ServerTheorems.LoadAfterSave(Run(start, ops).rows, empty);
  }
}
