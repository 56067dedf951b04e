/** The table of servers in shared memory and its text form (gmontdb.cc:122-158, 289-361, 412-466,
    634-667, 715-779). A row is in use when its name is not empty; `cola`, `qid` and `pid` hold
    the queue key, queue id and process of each running instance. */
module ServerTable {
  import opened Common
  import opened Strings

  const INSTANCES: nat := 255
  const NAME_WIDTH: nat := 32
  const TEXT_WIDTH: nat := 255

  type Instances = s: seq<int> | |s| == INSTANCES witness seq(INSTANCES, _ => 0)

  datatype Row = Row(nombre: string, descripcion: string, modo: int, path: string,
                     cola: Instances, qid: Instances, pid: Instances)

  /** A record of the text form. */
  datatype Server = Server(nombre: string, descripcion: string, modo: int, path: string)

  function Zeros(): Instances {
    seq(INSTANCES, _ => 0)
  }

  predicate IsLive(r: Row) {
    r.nombre != ""
  }

  /** The row of a server, or the length of the table. */
  function RowOf(rows: seq<Row>, nombre: string): (i: nat)
    ensures i <= |rows|
    ensures i < |rows| ==> IsLive(rows[i]) && rows[i].nombre == nombre
    ensures forall j :: 0 <= j < i ==> !(IsLive(rows[j]) && rows[j].nombre == nombre)
  {
    First(rows, (r: Row) => IsLive(r) && r.nombre == nombre)
  }

  function FirstHole(rows: seq<Row>): (i: nat)
    ensures i <= |rows|
    ensures i < |rows| ==> !IsLive(rows[i])
    ensures forall j :: 0 <= j < i ==> IsLive(rows[j])
  {
    First(rows, (r: Row) => !IsLive(r))
  }

  /** The answer of `Server`: description, mode and path. */
  function Find(rows: seq<Row>, nombre: string): Option<(string, int, string)> {
    var i := RowOf(rows, nombre);
    if i == |rows| then None else Some((rows[i].descripcion, rows[i].modo, rows[i].path))
  }

  function Renamed(r: Row, t: Server): Row {
    r.(nombre := Cut(t.nombre, NAME_WIDTH), descripcion := Cut(t.descripcion, TEXT_WIDTH),
       modo := t.modo, path := Cut(t.path, TEXT_WIDTH))
  }

  const BLANK: Row := Row("", "", 0, "", Zeros(), Zeros(), Zeros())

  /** The table after `Add`, and its result. */
  function Added(rows: seq<Row>, t: Server): (seq<Row>, int) {
    var i := RowOf(rows, t.nombre);
    var hole := FirstHole(rows);
    if i < |rows| then (rows[i := Renamed(rows[i], t)], 0)
    else if hole < |rows| then (rows[hole := Renamed(BLANK, t)], 0)
    else (rows, -1)
  }

  /** `AddSrv` and, with zeros, `RemoveSrv`. The test of the index lets 255 through, for which the
      arrays have no element. */
  function Registered(rows: seq<Row>, nombre: string, pid: int, cola: int, qid: int, indice: int): (seq<Row>, int)
    requires indice != INSTANCES
  {
    var i := RowOf(rows, nombre);
    if indice < 0 || indice > 255 || i == |rows| then (rows, -1)
    else
      var r := rows[i];
      (rows[i := r.(cola := r.cola[indice := cola], qid := r.qid[indice := qid], pid := r.pid[indice := pid])], 0)
  }

  // ----- The text form -----

  function LineOf(r: Row): string {
    Join([r.nombre, r.descripcion, Show(r.modo), r.path], '|')
  }

  /** An unused row leaves no line. */
  function LinesOf(r: Row): seq<string> {
    if IsLive(r) then [LineOf(r)] else []
  }

  function SavedLines(rows: seq<Row>): seq<string> {
    if rows == [] then [] else LinesOf(rows[0]) + SavedLines(rows[1..])
  }

  function TextOf(lines: seq<string>): string {
    if lines == [] then "" else lines[0] + "\n" + TextOf(lines[1..])
  }

  /** The file that `SaveSrv` writes. */
  function Saved(rows: seq<Row>): string {
    TextOf(SavedLines(rows))
  }

  /** What a `getline` loop reads: the last piece does not count if it is empty. */
  function Lines(text: string): seq<string> {
    var pieces := Fields(text, '\n');
    if pieces[|pieces| - 1] == "" then pieces[..|pieces| - 1] else pieces
  }

  predicate IsComment(line: string) {
    line == "" || line[0] == '#'
  }

  function Parsed(line: string): Option<Server> {
    var vs := Fields(line, '|');
    if |vs| < 4 then None else Some(Server(vs[0], vs[1], Atoi(vs[2]), vs[3]))
  }

  /** `LoadSrv`: a record that does not fit in the table is skipped, one that cannot be parsed ends
      the loading. */
  function LoadedLines(rows: seq<Row>, lines: seq<string>): (seq<Row>, int)
    decreases |lines|
  {
    if lines == [] then (rows, 0)
    else if IsComment(lines[0]) then LoadedLines(rows, lines[1..])
    else if Parsed(lines[0]).None? then (rows, -1)
    else LoadedLines(Added(rows, Parsed(lines[0]).value).0, lines[1..])
  }

  function Loaded(rows: seq<Row>, text: string): (seq<Row>, int) {
    LoadedLines(rows, Lines(text))
  }

  // ----- What every table keeps -----

  ghost predicate Plain(s: string) {
    '|' !in s && '\n' !in s
  }

  ghost predicate CleanRow(r: Row) {
    && Plain(r.nombre) && Plain(r.descripcion) && Plain(r.path)
    && |r.nombre| <= NAME_WIDTH && |r.descripcion| <= TEXT_WIDTH && |r.path| <= TEXT_WIDTH
    && (IsLive(r) ==> r.nombre[0] != '#')
  }

  ghost predicate DistinctNames(rows: seq<Row>) {
    forall i, j :: 0 <= i < j < |rows| && IsLive(rows[i]) && IsLive(rows[j]) ==> rows[i].nombre != rows[j].nombre
  }

  ghost predicate Good(rows: seq<Row>) {
    DistinctNames(rows) && forall i :: 0 <= i < |rows| && IsLive(rows[i]) ==> CleanRow(rows[i])
  }

  ghost predicate NoneLive(rows: seq<Row>) {
    forall i :: 0 <= i < |rows| ==> !IsLive(rows[i])
  }

  /** No record that the loading reaches has a name too long to be stored; comments, and lines after
      one that cannot be parsed, may hold anything. */
  ghost predicate ShortNames(lines: seq<string>)
    decreases |lines|
  {
    if lines == [] then true
    else if IsComment(lines[0]) then ShortNames(lines[1..])
    else if Parsed(lines[0]).None? then true
    else |Parsed(lines[0]).value.nombre| <= NAME_WIDTH && ShortNames(lines[1..])
  }

  lemma CutPlain(s: string, n: nat)
    requires Plain(s)
    ensures Plain(Cut(s, n)) && |Cut(s, n)| <= n
  {}

  lemma ParsedIsClean(line: string)
    requires '\n' !in line && !IsComment(line) && Parsed(line).Some? && |Parsed(line).value.nombre| <= NAME_WIDTH
    ensures forall r :: CleanRow(Renamed(r, Parsed(line).value))
  {
    var vs := Fields(line, '|');
    JoinSplit(line, '|');
    forall k | 0 <= k < |vs| ensures Plain(vs[k]) {
      assert vs[k] in vs;
    }
    CutPlain(vs[0], NAME_WIDTH);
    CutPlain(vs[1], TEXT_WIDTH);
    CutPlain(vs[3], TEXT_WIDTH);
    assert vs[0] != "" ==> vs[0][0] == line[0];
  }

  lemma AddedGood(rows: seq<Row>, t: Server)
    requires Good(rows) && |t.nombre| <= NAME_WIDTH && forall r :: CleanRow(Renamed(r, t))
    ensures Good(Added(rows, t).0) && |Added(rows, t).0| == |rows|
  {
    var i := if RowOf(rows, t.nombre) < |rows| then RowOf(rows, t.nombre) else FirstHole(rows);
    if i < |rows| {
      var next := Added(rows, t).0;
      assert next[i].nombre == t.nombre && CleanRow(next[i]);
      forall a, b | 0 <= a < b < |next| && IsLive(next[a]) && IsLive(next[b]) ensures next[a].nombre != next[b].nombre {
        assert a != i ==> next[a] == rows[a];
        assert b != i ==> next[b] == rows[b];
      }
    }
  }

  lemma {:induction false} LoadedLinesGood(rows: seq<Row>, lines: seq<string>)
    requires Good(rows) && ShortNames(lines) && forall i :: 0 <= i < |lines| ==> '\n' !in lines[i]
    ensures Good(LoadedLines(rows, lines).0) && |LoadedLines(rows, lines).0| == |rows|
    decreases |lines|
  {
    if lines == [] || (!IsComment(lines[0]) && Parsed(lines[0]).None?) {
    } else if IsComment(lines[0]) {
      LoadedLinesGood(rows, lines[1..]);
    } else {
      ParsedIsClean(lines[0]);
      AddedGood(rows, Parsed(lines[0]).value);
      LoadedLinesGood(Added(rows, Parsed(lines[0]).value).0, lines[1..]);
    }
  }

  lemma LinesHaveNoBreak(text: string)
    ensures forall i :: 0 <= i < |Lines(text)| ==> '\n' !in Lines(text)[i]
  {
    JoinSplit(text, '\n');
    forall i | 0 <= i < |Lines(text)| ensures '\n' !in Lines(text)[i] {
      assert Lines(text)[i] in Fields(text, '\n');
    }
  }

  /** Loading any file whose records, as far as they are read, have names that fit keeps the table good. */
  lemma LoadedGood(rows: seq<Row>, text: string)
    requires Good(rows) && ShortNames(Lines(text))
    ensures Good(Loaded(rows, text).0) && |Loaded(rows, text).0| == |rows|
  {
    LinesHaveNoBreak(text);
    LoadedLinesGood(rows, Lines(text));
  }

  /** So does a server that registers or leaves, and no server's data changes. */
  lemma RegisteredGood(rows: seq<Row>, nombre: string, pid: int, cola: int, qid: int, indice: int)
    requires Good(rows) && indice != INSTANCES
    ensures Good(Registered(rows, nombre, pid, cola, qid, indice).0)
    ensures forall n :: Find(Registered(rows, nombre, pid, cola, qid, indice).0, n) == Find(rows, n)
  {
    var next := Registered(rows, nombre, pid, cola, qid, indice).0;
    assert SameData(rows, next);
    SameDataGood(rows, next);
    forall n ensures Find(next, n) == Find(rows, n) {
      SameNames(rows, next, n);
    }
  }

  /** The rows agree in everything but the instances. */
  ghost predicate SameData(a: seq<Row>, b: seq<Row>) {
    |a| == |b| && forall i :: 0 <= i < |a| ==>
      b[i].nombre == a[i].nombre && b[i].descripcion == a[i].descripcion && b[i].modo == a[i].modo && b[i].path == a[i].path
  }

  lemma SameDataGood(a: seq<Row>, b: seq<Row>)
    requires Good(a) && SameData(a, b)
    ensures Good(b)
  {}

  lemma SameNames(a: seq<Row>, b: seq<Row>, nombre: string)
    requires |a| == |b| && forall i :: 0 <= i < |a| ==> a[i].nombre == b[i].nombre
    ensures RowOf(a, nombre) == RowOf(b, nombre)
  {
    var i, j := RowOf(a, nombre), RowOf(b, nombre);
    assert i < |a| ==> a[i].nombre == b[i].nombre;
    assert j < |b| ==> a[j].nombre == b[j].nombre;
  }
}
