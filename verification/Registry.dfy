/** The registry object `CGMTdb` (gmontdb.cc) over its two tables in shared memory, and the states that it can
    reach. */
module Registry {
  import opened Common
  import opened Strings
  import Svc = ServiceTable
  import Srv = ServerTable
  import opened Routing

  // ----- Reachable states -----

  datatype State = State(rows: seq<Srv.Row>, slots: seq<Svc.Service>)

  datatype Op =
    | Load(text: string)
    | Enter(nombre: string, pid: int, cola: int, qid: int, indice: int)
    | Leave(nombre: string, indice: int)
    | Table(op: Svc.Op)

  /** Names fit their fields, and no instance has the number 255. */
  ghost predicate Proper(op: Op) {
    match op
    case Load(text) => Srv.ShortNames(Srv.Lines(text))
    case Enter(_, _, _, _, indice) => indice != Srv.INSTANCES
    case Leave(_, indice) => indice != Srv.INSTANCES
    case Table(op) => Svc.Fits(op.key)
  }

  ghost function Step(st: State, op: Op): State
    requires Proper(op)
  {
    match op
    case Load(text) => st.(rows := Srv.Loaded(st.rows, text).0)
    case Enter(nombre, pid, cola, qid, indice) => st.(rows := Srv.Registered(st.rows, nombre, pid, cola, qid, indice).0)
    case Leave(nombre, indice) => st.(rows := Srv.Registered(st.rows, nombre, 0, 0, 0, indice).0)
    case Table(op) => st.(slots := Svc.Apply(st.slots, op).0)
  }

  ghost function Run(st: State, ops: seq<Op>): State
    requires forall i :: 0 <= i < |ops| ==> Proper(ops[i])
    decreases |ops|
  {
    if ops == [] then st else Run(Step(st, ops[0]), ops[1..])
  }

  ghost predicate Good(st: State) {
    Srv.Good(st.rows) && Svc.Good(st.slots)
  }

  ghost predicate Empty(st: State) {
    Srv.NoneLive(st.rows) && forall i :: 0 <= i < |st.slots| ==> !Svc.IsLive(st.slots[i])
  }

  // ----- The object -----

  class CGMTdb {
    const servers: array<Srv.Row>
    const services: array<Svc.Service>

    constructor (maxServers: nat, maxServices: nat)
      ensures fresh(servers) && fresh(services)
      ensures servers.Length == maxServers && services.Length == maxServices
      ensures Empty(State(servers[..], services[..]))
    {
      servers := new Srv.Row[maxServers](_ => Srv.BLANK);
      services := new Svc.Service[maxServices](_ => Svc.Service(Svc.Key("", '\0', ""), 0));
    }

    method Server(nombre: string) returns (found: Option<(string, int, string)>)
      ensures found == Srv.Find(servers[..], nombre)
    {
      for i := 0 to servers.Length
        invariant forall j :: 0 <= j < i ==> !(Srv.IsLive(servers[j]) && servers[j].nombre == nombre)
      {
        if |servers[i].nombre| > 0 && servers[i].nombre == nombre {
          assert Srv.RowOf(servers[..], nombre) == i;
          return Some((servers[i].descripcion, servers[i].modo, servers[i].path));
        }
      }
      assert Srv.RowOf(servers[..], nombre) == servers.Length;
      return None;
    }

    method AddSrv(nombre: string, pid: int, cola: int, qid: int, indice: int) returns (rc: int)
      requires indice != Srv.INSTANCES
      modifies servers
      ensures (servers[..], rc) == Srv.Registered(old(servers[..]), nombre, pid, cola, qid, indice)
    {
      if indice < 0 || indice > 255 {
        return -1;
      }
      for i := 0 to servers.Length
        invariant servers[..] == old(servers[..])
        invariant forall j :: 0 <= j < i ==> !(Srv.IsLive(servers[j]) && servers[j].nombre == nombre)
      {
        if |servers[i].nombre| > 0 && nombre == servers[i].nombre {
          var server := servers[i];
          assert Srv.RowOf(servers[..], nombre) == i;
          server := server.(cola := server.cola[indice := cola]);
          server := server.(qid := server.qid[indice := qid]);
          server := server.(pid := server.pid[indice := pid]);
          servers[i] := server;
          return 0;
        }
      }
      assert Srv.RowOf(servers[..], nombre) == servers.Length;
      return -1;
    }

    method RemoveSrv(nombre: string, indice: int) returns (rc: int)
      requires indice != Srv.INSTANCES
      modifies servers
      ensures (servers[..], rc) == Srv.Registered(old(servers[..]), nombre, 0, 0, 0, indice)
    {
      if indice < 0 || indice > 255 {
        return -1;
      }
      for i := 0 to servers.Length
        invariant servers[..] == old(servers[..])
        invariant forall j :: 0 <= j < i ==> !(Srv.IsLive(servers[j]) && servers[j].nombre == nombre)
      {
        if |servers[i].nombre| > 0 && nombre == servers[i].nombre {
          var server := servers[i];
          assert Srv.RowOf(servers[..], nombre) == i;
          server := server.(cola := server.cola[indice := 0]);
          server := server.(qid := server.qid[indice := 0]);
          server := server.(pid := server.pid[indice := 0]);
          servers[i] := server;
          return 0;
        }
      }
      assert Srv.RowOf(servers[..], nombre) == servers.Length;
      return -1;
    }

    /** `Add` of a server: replaces the record of that name, or takes the first unused row. */
    method AddServer(t: Srv.Server) returns (rc: int)
      modifies servers
      ensures (servers[..], rc) == Srv.Added(old(servers[..]), t)
    {
      var idx := servers.Length;
      var update := false;
      var i := 0;
      while i < servers.Length
        invariant 0 <= i <= servers.Length && 0 <= idx <= servers.Length && !update && servers[..] == old(servers[..])
        invariant forall j :: 0 <= j < i ==> !(Srv.IsLive(servers[j]) && servers[j].nombre == t.nombre)
        invariant if idx == servers.Length then forall j :: 0 <= j < i ==> Srv.IsLive(servers[j])
                  else idx < i && !Srv.IsLive(servers[idx]) && forall j :: 0 <= j < idx ==> Srv.IsLive(servers[j])
      {
        if |servers[i].nombre| > 0 {
          if t.nombre == servers[i].nombre {
            idx := i;
            update := true;
            break;
          }
        } else if idx == servers.Length {
          idx := i;
        }
        i := i + 1;
      }
      if idx < servers.Length {
        var server := if update then servers[idx] else Srv.BLANK;
        servers[idx] := Srv.Renamed(server, t);
        return 0;
      }
      return -1;
    }

    /** `Add` of a service: one more subscription, or the first unused slot. */
    method AddSvc(key: Svc.Key) returns (rc: int)
      modifies services
      ensures (services[..], rc) == Svc.Added(old(services[..]), key)
    {
      var idx := services.Length;
      var i := 0;
      while i < services.Length
        invariant 0 <= i <= services.Length && 0 <= idx <= services.Length && services[..] == old(services[..])
        invariant forall j :: 0 <= j < i ==> !(Svc.IsLive(services[j]) && services[j].key == key)
        invariant if idx == services.Length then forall j :: 0 <= j < i ==> Svc.IsLive(services[j])
                  else idx < i && !Svc.IsLive(services[idx]) && forall j :: 0 <= j < idx ==> Svc.IsLive(services[j])
      {
        if |services[i].key.servicio| > 0 {
          if key == services[i].key {
            FoundSlot(services[..], key, i);
            services[i] := services[i].(suscripciones := services[i].suscripciones + 1);
            return 0;
          }
        } else if idx == services.Length {
          idx := i;
        }
        i := i + 1;
      }
      if idx < services.Length {
        services[idx] := Svc.Stored(key);
        return 0;
      }
      return -1;
    }

    /** `Remove` of a service: one subscription less; the name of the last one is wiped. */
    method RemoveSvc(key: Svc.Key) returns (rc: int)
      modifies services
      ensures (services[..], rc) == Svc.Removed(old(services[..]), key)
    {
      for i := 0 to services.Length
        invariant services[..] == old(services[..])
        invariant forall j :: 0 <= j < i ==> !(Svc.IsLive(services[j]) && services[j].key == key)
      {
        if |services[i].key.servicio| > 0 && key == services[i].key {
          FoundSlot(services[..], key, i);
          var funcion := services[i];
          funcion := funcion.(suscripciones := funcion.suscripciones - 1);
          if funcion.suscripciones <= 0 {
            funcion := funcion.(key := funcion.key.(servicio := ""));
          }
          services[i] := funcion;
          return 0;
        }
      }
      assert Svc.SlotOf(services[..], key) == services.Length;
      return -1;
    }

    /** The queues of a service: three nested loops. */
    method Cola(servicio: string, tipo: char) returns (colas: seq<int>)
      ensures colas == QueuesOf(servers[..], AllHits(services[..], servers[..], servicio, tipo))
    {
      colas := [];
      ghost var slots, rows := services[..], servers[..];
      for i := 0 to services.Length
        invariant slots == services[..] && rows == servers[..]
        invariant colas == QueuesOf(rows, Hits(slots, rows, servicio, tipo, i))
      {
        SlotQueues(slots, rows, servicio, tipo, i);
        if |services[i].key.servicio| > 0 && services[i].key.servicio == servicio && services[i].key.tipo == tipo {
          var more := ColaOfSlot(i);
          colas := colas + more;
        }
      }
    }

    method ColaOfSlot(i: nat) returns (colas: seq<int>)
      requires i < services.Length
      ensures colas == QueuesOf(servers[..], HitsOfSlot(services[..], servers[..], i, servers.Length))
    {
      colas := [];
      ghost var slots, rows := services[..], servers[..];
      for j := 0 to servers.Length
        invariant slots == services[..] && rows == servers[..]
        invariant colas == QueuesOf(rows, HitsOfSlot(slots, rows, i, j))
      {
        ServerQueues(slots, rows, i, j);
        if |servers[j].nombre| > 0 && services[i].key.server == servers[j].nombre {
          var more := ColaOfServer(servers[j], rows, i, j);
          colas := colas + more;
        }
      }
    }

    method ColaOfServer(server: Srv.Row, ghost rows: seq<Srv.Row>, ghost i: nat, ghost j: nat) returns (colas: seq<int>)
      requires j < |rows| && rows[j] == server
      ensures colas == QueuesOf(rows, HitsOfRow(rows, i, j, |rows[j].cola|))
    {
      colas := [];
      for k := 0 to |server.cola|
        invariant colas == QueuesOf(rows, HitsOfRow(rows, i, j, k))
      {
        RowQueues(rows, i, j, k);
        if server.cola[k] > 0 {
          colas := colas + [server.cola[k]];
        }
      }
    }

    /** `text` is the content of the table file. */
    method LoadSrv(text: string) returns (rc: int)
      modifies servers
      ensures (servers[..], rc) == Srv.Loaded(old(servers[..]), text)
    {
      var lines := Srv.Lines(text);
      ghost var start := servers[..];
      assert lines[0..] == lines;
      for n := 0 to |lines|
        invariant Srv.Loaded(start, text) == Srv.LoadedLines(servers[..], lines[n..])
      {
        var s := lines[n];
        assert lines[n..][0] == s && lines[n..][1..] == lines[n + 1..];
        if |s| > 0 && s[0] != '#' {
          var vs := Split(s, '|');
          if |vs| < 4 {
            return -1;
          }
          var _ := AddServer(Srv.Server(vs[0], vs[1], Atoi(vs[2]), vs[3]));
        }
      }
      return 0;
    }

    /** The text that is written to the table file. */
    method SaveSrv() returns (text: string)
      ensures text == Srv.Saved(servers[..])
    {
      text := "";
      ghost var rows := servers[..];
      for j := 0 to servers.Length
        invariant rows == servers[..]
        invariant text == Srv.Saved(rows[..j])
      {
        SavedMore(rows, j);
        if |servers[j].nombre| > 0 {
          LineInPieces(text, servers[j]);
          text := text + servers[j].nombre + "|";
          text := text + servers[j].descripcion + "|";
          text := text + Show(servers[j].modo) + "|";
          text := text + servers[j].path + "\n";
        }
      }
      assert rows[..servers.Length] == rows;
    }

    /** Only the process that created the memory may reload it. */
    method Reload(owner: bool, text: string) returns (rc: int)
      modifies servers
      ensures (servers[..], rc) == if owner then Srv.Loaded(old(servers[..]), text) else (old(servers[..]), -1)
    {
      if owner {
        rc := LoadSrv(text);
      } else {
        rc := -1;
      }
    }

    /** An event goes to every queue of its service. */
    method Event(servicio: string, tipo: char, forks: nat -> bool) returns (status: Status, sent: seq<int>)
      ensures var queues := QueuesOf(servers[..], AllHits(services[..], servers[..], servicio, tipo));
              && (status == NotFound <==> queues == [])
              && sent == Delivered(queues, seq(|queues|, n requires 0 <= n < |queues| => forks(n)))
              && (sent == queues <==> forall n :: 0 <= n < |queues| ==> forks(n))
    {
      var colas := Cola(servicio, tipo);
      var made := seq(|colas|, n requires 0 <= n < |colas| => forks(n));
      status, sent := SendEvent(colas, made);
      DeliveredToAll(colas, made);
      AllMade(made, forks);
    }
  }

  lemma AllMade(made: seq<bool>, forks: nat -> bool)
    requires forall n :: 0 <= n < |made| ==> made[n] == forks(n)
    ensures (forall n :: 0 <= n < |made| ==> made[n]) <==> forall n :: 0 <= n < |made| ==> forks(n)
  {
    if forall n :: 0 <= n < |made| ==> forks(n) {
      forall n | 0 <= n < |made| ensures made[n] {
        assert forks(n);
      }
    }
  }

  lemma LineInPieces(text: string, r: Srv.Row)
    ensures text + r.nombre + "|" + r.descripcion + "|" + Show(r.modo) + "|" + r.path + "\n" == text + Srv.LineOf(r) + "\n"
  {
    var rest := [Show(r.modo), r.path];
    assert Join(rest, '|') == Show(r.modo) + ['|'] + r.path;
    var more := [r.descripcion] + rest;
    assert more[1..] == rest;
    assert Join(more, '|') == r.descripcion + ['|'] + Join(rest, '|');
    var all := [r.nombre] + more;
    assert all[1..] == more && all == [r.nombre, r.descripcion, Show(r.modo), r.path];
    assert Srv.LineOf(r) == r.nombre + ['|'] + Join(more, '|');
  }

  /** A queue of the list, if there is one; with several, the least loaded one exactly when the first
      queue looked at answers or none does. */
  ghost predicate IsChoice(queues: seq<int>, load: int -> int, pid: nat, queue: int) {
    && (queue == -1 <==> queues == [])
    && (queues != [] ==> queue in queues)
    && (|queues| > 1 ==>
          ((forall n :: 0 <= n < |queues| && load(queues[n]) >= 0 ==> 0 <= load(queue) <= load(queues[n])) <==>
           load(queues[pid % |queues|]) >= 0 || forall n :: 0 <= n < |queues| ==> load(queues[n]) < 0))
  }

  /** The queue for a request. `load` is what the queue system answers about a queue. */
  method SelectQueueFor(db: CGMTdb, servicio: string, tipo: char, load: int -> int, pid: nat) returns (queue: int)
    ensures IsChoice(QueuesOf(db.servers[..], AllHits(db.services[..], db.servers[..], servicio, tipo)), load, pid, queue)
  {
    var colas := db.Cola(servicio, tipo);
    var loads := seq(|colas|, n requires 0 <= n < |colas| => load(colas[n]));
    var probes;
    queue, probes := SelectQueue(colas, loads, pid);
    ListedArePositive(db.services[..], db.servers[..], servicio, tipo);
    ChoiceOfQueue(colas, loads, load, pid, queue);
  }

  lemma {:induction false} ListedArePositive(slots: seq<Svc.Service>, rows: seq<Srv.Row>, servicio: string, tipo: char)
    ensures forall q :: q in QueuesOf(rows, AllHits(slots, rows, servicio, tipo)) ==> q > 0
  {
    JoinIsExact(slots, rows, servicio, tipo);
    var hits := AllHits(slots, rows, servicio, tipo);
    forall q | q in QueuesOf(rows, hits) ensures q > 0 {
      var n :| 0 <= n < |QueuesOf(rows, hits)| && QueuesOf(rows, hits)[n] == q;
      assert QueueOf(rows, hits[n]) > 0;
    }
  }

  lemma {:induction false} ChoiceOfQueue(queues: seq<int>, loads: seq<int>, load: int -> int, pid: nat, queue: int)
    requires |loads| == |queues| && forall n :: 0 <= n < |loads| ==> loads[n] == load(queues[n])
    requires forall q :: q in queues ==> q > 0
    requires |queues| == 0 ==> queue == -1
    requires |queues| == 1 ==> queue == queues[0]
    requires |queues| > 1 ==> queue == queues[Candidate(loads, pid % |queues|, |queues| - 1)]
    ensures IsChoice(queues, load, pid, queue)
  {
    assert |queues| > 0 ==> queues[0] in queues;
    if |queues| > 1 {
      var start := pid % |queues|;
      var c := Candidate(loads, start, |queues| - 1);
      LeastLoadedWhenFirstAnswers(loads, start);
      assert queues[c] in queues && loads[c] == load(queue) && loads[start] == load(queues[start]);
      assert (forall n :: 0 <= n < |loads| ==> loads[n] < 0) <==> forall n :: 0 <= n < |queues| ==> load(queues[n]) < 0;
      assert IsLeastLoaded(loads, c) <==>
             forall n :: 0 <= n < |queues| && load(queues[n]) >= 0 ==> 0 <= load(queue) <= load(queues[n]);
    }
  }

  lemma FoundSlot(slots: seq<Svc.Service>, key: Svc.Key, i: nat)
    requires i < |slots| && Svc.IsLive(slots[i]) && slots[i].key == key
    requires forall j :: 0 <= j < i ==> !(Svc.IsLive(slots[j]) && slots[j].key == key)
    ensures Svc.SlotOf(slots, key) == i
  {}

  /** What one turn of the outer loop of `Cola` adds. */
  lemma {:induction false} SlotQueues(slots: seq<Svc.Service>, rows: seq<Srv.Row>, servicio: string, tipo: char, i: nat)
    requires i < |slots|
    ensures QueuesOf(rows, Hits(slots, rows, servicio, tipo, i + 1)) ==
            QueuesOf(rows, Hits(slots, rows, servicio, tipo, i)) +
            if Asked(slots, i, servicio, tipo) then QueuesOf(rows, HitsOfSlot(slots, rows, i, |rows|)) else []
  {
    QueuesAppend(rows, Hits(slots, rows, servicio, tipo, i), SlotParts(slots, rows, servicio, tipo)(i));
  }

  /** What one turn of the middle loop adds. */
  lemma {:induction false} ServerQueues(slots: seq<Svc.Service>, rows: seq<Srv.Row>, i: nat, j: nat)
    requires i < |slots| && j < |rows|
    ensures QueuesOf(rows, HitsOfSlot(slots, rows, i, j + 1)) ==
            QueuesOf(rows, HitsOfSlot(slots, rows, i, j)) +
            if Serves(slots, rows, i, j) then QueuesOf(rows, HitsOfRow(rows, i, j, |rows[j].cola|)) else []
  {
    QueuesAppend(rows, HitsOfSlot(slots, rows, i, j), RowParts(slots, rows, i)(j));
  }

  lemma {:induction false} RowQueues(rows: seq<Srv.Row>, i: nat, j: nat, k: nat)
    requires j < |rows| && k < Srv.INSTANCES
    ensures QueuesOf(rows, HitsOfRow(rows, i, j, k + 1)) ==
            QueuesOf(rows, HitsOfRow(rows, i, j, k)) + if rows[j].cola[k] > 0 then [rows[j].cola[k]] else []
  {
    var more := if Runs(rows, j, k) then [Hit(i, j, k)] else [];
    QueuesAppend(rows, HitsOfRow(rows, i, j, k), more);
    assert more != [] ==> more[1..] == [];
  }

  lemma {:induction false} SavedLinesFront(r: Srv.Row, rows: seq<Srv.Row>)
    ensures Srv.SavedLines([r] + rows) == Srv.LinesOf(r) + Srv.SavedLines(rows)
  {
    assert ([r] + rows)[1..] == rows;
  }

  lemma {:induction false} SavedLinesMore(rows: seq<Srv.Row>, r: Srv.Row)
    ensures Srv.SavedLines(rows + [r]) == Srv.SavedLines(rows) + Srv.LinesOf(r)
  {
    if rows == [] {
      assert [r] + [] == [r] && rows + [r] == [r];
      SavedLinesFront(r, []);
    } else {
      SavedLinesMore(rows[1..], r);
      Associate(Srv.LinesOf(rows[0]), Srv.SavedLines(rows[1..]), Srv.LinesOf(r));
      SavedLinesFront(rows[0], rows[1..]);
      SavedLinesFront(rows[0], rows[1..] + [r]);
      assert rows == [rows[0]] + rows[1..] && rows + [r] == [rows[0]] + (rows[1..] + [r]);
    }
  }

  lemma {:induction false} TextMore(lines: seq<string>, line: string)
    ensures Srv.TextOf(lines + [line]) == Srv.TextOf(lines) + line + "\n"
  {
    if lines == [] {
      assert [line][1..] == [] && lines + [line] == [line];
    } else {
      assert (lines + [line])[0] == lines[0] && (lines + [line])[1..] == lines[1..] + [line];
      TextMore(lines[1..], line);
    }
  }

  lemma SavedMore(rows: seq<Srv.Row>, j: nat)
    requires j < |rows|
    ensures Srv.Saved(rows[..j + 1]) ==
            if Srv.IsLive(rows[j]) then Srv.Saved(rows[..j]) + Srv.LineOf(rows[j]) + "\n" else Srv.Saved(rows[..j])
  {
    assert rows[..j + 1] == rows[..j] + [rows[j]];
    SavedLinesMore(rows[..j], rows[j]);
    TextMore(Srv.SavedLines(rows[..j]), Srv.LineOf(rows[j]));
    assert Srv.SavedLines(rows[..j]) + [] == Srv.SavedLines(rows[..j]);
  }
}
