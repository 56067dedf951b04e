/** The text form of the server table reads back: reloading it changes nothing, and loading it elsewhere
    gives the same answers. */
module ServerTheorems {
  import opened Common
  import opened Strings
  import opened ServerTable

  // ----- Reading back what was written -----

  /** A saved line is parsed to exactly the fields of its row. */
  lemma LineParsesBack(r: Row)
    requires IsLive(r) && CleanRow(r)
    ensures '\n' !in LineOf(r) && !IsComment(LineOf(r))
    ensures Parsed(LineOf(r)) == Some(RecordOf(r))
  {
    var vs := [r.nombre, r.descripcion, Show(r.modo), r.path];
    ShowIsPlain(r.modo);
    SplitJoin(vs, '|');
    JoinedLine(vs);
    AtoiOfShow(r.modo, "");
    assert Show(r.modo) + "" == Show(r.modo);
  }

  lemma {:induction false} JoinedLine(vs: seq<string>)
    requires vs != [] && forall i :: 0 <= i < |vs| ==> '\n' !in vs[i]
    ensures '\n' !in Join(vs, '|') && vs[0] <= Join(vs, '|')
  {
    if |vs| > 1 {
      JoinedLine(vs[1..]);
    }
  }

  lemma ShowIsPlain(n: int)
    ensures Plain(Show(n))
  {
    DigitsReadBack(if n < 0 then -n else n);
  }

  lemma {:induction false} TextReadsBack(lines: seq<string>)
    requires forall i :: 0 <= i < |lines| ==> '\n' !in lines[i]
    ensures Fields(TextOf(lines), '\n') == lines + [""]
  {
    if lines != [] {
      TextReadsBack(lines[1..]);
      FirstField(lines[0], TextOf(lines[1..]), '\n');
      assert lines[0] + "\n" + TextOf(lines[1..]) == lines[0] + ['\n'] + TextOf(lines[1..]);
      assert [lines[0]] + (lines[1..] + [""]) == lines + [""];
    }
  }

  lemma {:induction false} SavedLinesPlain(rows: seq<Row>)
    requires forall i :: 0 <= i < |rows| && IsLive(rows[i]) ==> CleanRow(rows[i])
    ensures forall i :: 0 <= i < |SavedLines(rows)| ==> '\n' !in SavedLines(rows)[i]
  {
    if rows != [] {
      SavedLinesPlain(rows[1..]);
      if IsLive(rows[0]) {
        LineParsesBack(rows[0]);
      }
    }
  }

  lemma {:induction false} SavedReadsBack(rows: seq<Row>)
    requires Good(rows)
    ensures Lines(Saved(rows)) == SavedLines(rows)
  {
    SavedLinesPlain(rows);
    TextReadsBack(SavedLines(rows));
  }

  // ----- Reloading -----

  lemma AddedAgain(rows: seq<Row>, k: nat)
    requires Good(rows) && k < |rows| && IsLive(rows[k])
    ensures var r := rows[k];
            Added(rows, RecordOf(r)) == (rows, 0)
  {
    var r := rows[k];
    assert Renamed(r, RecordOf(r)) == r;
    assert rows[k := r] == rows;
  }

  lemma {:induction false} ReloadFrom(rows: seq<Row>, k: nat)
    requires Good(rows) && k <= |rows|
    ensures LoadedLines(rows, SavedLines(rows[k..])) == (rows, 0)
    decreases |rows| - k
  {
    if k < |rows| {
      ReloadFrom(rows, k + 1);
      GoodFrom(rows, k);
      LoadOne(rows, rows[k..]);
      ReloadedOne(rows, k);
    }
  }

  lemma GoodFrom(rows: seq<Row>, k: nat)
    requires Good(rows) && k < |rows|
    ensures Good(rows[k..]) && rows[k..][1..] == rows[k + 1..]
  {
    assert forall i :: 0 <= i < |rows[k..]| ==> rows[k..][i] == rows[k + i];
  }

  lemma ReloadedOne(rows: seq<Row>, k: nat)
    requires Good(rows) && k < |rows|
    ensures AfterOne(rows, rows[k..]) == rows
  {
    assert rows[k..][0] == rows[k];
    if IsLive(rows[k]) {
      AddedAgain(rows, k);
    }
  }

  /** Reloading what was saved over the live table leaves every row as it was, with all its queues,
      queue ids and processes. */
  lemma ReloadChangesNothing(rows: seq<Row>)
    requires Good(rows)
    ensures Loaded(rows, Saved(rows)) == (rows, 0)
  {
    SavedReadsBack(rows);
    ReloadFrom(rows, 0);
    assert rows[0..] == rows;
  }

  // ----- Loading into an empty table -----

  function Bare(r: Row): Row {
    r.(cola := Zeros(), qid := Zeros(), pid := Zeros())
  }

  /** The rows in use, without their instances, moved together. */
  function Compact(rows: seq<Row>): seq<Row> {
    if rows == [] then []
    else (if IsLive(rows[0]) then [Bare(rows[0])] else []) + Compact(rows[1..])
  }

  /** The table holds `done` and has nothing else in use. */
  ghost predicate Holds(table: seq<Row>, done: seq<Row>) {
    && |done| <= |table|
    && (forall i :: 0 <= i < |done| ==> table[i] == done[i])
    && (forall i :: |done| <= i < |table| ==> !IsLive(table[i]))
  }

  lemma NotHeld(table: seq<Row>, done: seq<Row>, nombre: string)
    requires Holds(table, done) && forall i :: 0 <= i < |done| ==> done[i].nombre != nombre
    ensures RowOf(table, nombre) == |table|
  {
  }

  lemma NextHole(table: seq<Row>, done: seq<Row>)
    requires Holds(table, done) && |done| < |table| && forall i :: 0 <= i < |done| ==> IsLive(done[i])
    ensures FirstHole(table) == |done|
  {
    var k := FirstHole(table);
    assert !IsLive(table[|done|]);
    assert forall i :: 0 <= i < |done| ==> table[i] == done[i] && IsLive(table[i]);
  }

  lemma AddedNext(table: seq<Row>, done: seq<Row>, r: Row)
    requires Holds(table, done) && |done| < |table| && IsLive(r) && CleanRow(r)
    requires forall i :: 0 <= i < |done| ==> IsLive(done[i]) && done[i].nombre != r.nombre
    ensures var (next, rc) := Added(table, RecordOf(r));
            && rc == 0 && |next| == |table|
            && Holds(next, done + [Bare(r)])
  {
    NotHeld(table, done, r.nombre);
    NextHole(table, done);
  }

  ghost predicate Apart(done: seq<Row>, rows: seq<Row>) {
    && (forall i :: 0 <= i < |done| ==> IsLive(done[i]))
    && (forall i, j :: 0 <= i < |done| && 0 <= j < |rows| && IsLive(rows[j]) ==> done[i].nombre != rows[j].nombre)
  }

  lemma ApartNext(done: seq<Row>, rows: seq<Row>)
    requires Good(rows) && Apart(done, rows) && rows != []
    ensures Good(rows[1..]) && Apart(done, rows[1..])
    ensures IsLive(rows[0]) ==> Apart(done + [Bare(rows[0])], rows[1..])
  {
    assert forall i :: 0 <= i < |rows[1..]| ==> rows[1..][i] == rows[i + 1];
  }

  function RecordOf(r: Row): Server {
    Server(r.nombre, r.descripcion, r.modo, r.path)
  }

  /** The table after the line of the first row, if that row is in use. */
  function AfterOne(table: seq<Row>, rows: seq<Row>): seq<Row>
    requires rows != []
  {
    if IsLive(rows[0]) then Added(table, RecordOf(rows[0])).0 else table
  }

  lemma {:induction false} LoadOne(table: seq<Row>, rows: seq<Row>)
    requires rows != [] && Good(rows)
    ensures LoadedLines(table, SavedLines(rows)) == LoadedLines(AfterOne(table, rows), SavedLines(rows[1..]))
  {
    var rest := SavedLines(rows[1..]);
    if IsLive(rows[0]) {
      LineParsesBack(rows[0]);
      assert SavedLines(rows) == [LineOf(rows[0])] + rest;
      assert SavedLines(rows)[1..] == rest;
    } else {
      assert SavedLines(rows) == rest;
    }
  }

  lemma {:induction false} CompactInTwo(done: seq<Row>, rows: seq<Row>)
    requires rows != []
    ensures Compact(rows[..1]) == if IsLive(rows[0]) then [Bare(rows[0])] else []
    ensures (done + Compact(rows[..1])) + Compact(rows[1..]) == done + Compact(rows)
  {
    assert rows[..1][1..] == [];
    Associate(done, Compact(rows[..1]), Compact(rows[1..]));
  }

  lemma {:induction false} HoldsOneMore(table: seq<Row>, done: seq<Row>, rows: seq<Row>)
    requires rows != [] && Good(rows) && Holds(table, done) && Apart(done, rows) && |done| + |rows| <= |table|
    ensures var next := AfterOne(table, rows);
            var more := done + Compact(rows[..1]);
            && |next| == |table| && Holds(next, more) && Apart(more, rows[1..]) && |more| + |rows[1..]| <= |next|
            && more + Compact(rows[1..]) == done + Compact(rows)
  {
    ApartNext(done, rows);
    CompactInTwo(done, rows);
    if IsLive(rows[0]) {
      AddedNext(table, done, rows[0]);
    } else {
      assert done + [] == done;
    }
  }

  lemma {:induction false} LoadRest(table: seq<Row>, done: seq<Row>, rows: seq<Row>)
    requires Good(rows) && Holds(table, done) && Apart(done, rows) && |done| + |rows| <= |table|
    ensures var (next, rc) := LoadedLines(table, SavedLines(rows));
            rc == 0 && |next| == |table| && Holds(next, done + Compact(rows))
    decreases |rows|
  {
    if rows == [] {
      assert done + [] == done;
    } else {
      ApartNext(done, rows);
      LoadOne(table, rows);
      HoldsOneMore(table, done, rows);
      LoadRest(AfterOne(table, rows), done + Compact(rows[..1]), rows[1..]);
    }
  }

  lemma HeldAt(table: seq<Row>, done: seq<Row>, r: Row, more: seq<Row>)
    requires Holds(table, done + ([r] + more)) && IsLive(r)
    requires forall i :: 0 <= i < |done| ==> done[i].nombre != r.nombre
    ensures RowOf(table, r.nombre) == |done| < |table| && table[|done|] == r
  {
    var all := done + ([r] + more);
    assert table[|done|] == all[|done|];
    assert forall i :: 0 <= i < |done| ==> table[i] == all[i] && all[i] == done[i];
  }

  lemma {:induction false} FindInCompact(table: seq<Row>, done: seq<Row>, rows: seq<Row>, nombre: string)
    requires Holds(table, done + Compact(rows)) && forall i :: 0 <= i < |done| ==> done[i].nombre != nombre
    ensures Find(table, nombre) == Find(rows, nombre)
    decreases |rows|
  {
    if rows == [] {
      assert done + Compact(rows) == done;
      NotHeld(table, done, nombre);
    } else {
      var r, copy := rows[0], Compact(rows[..1]);
      CompactInTwo(done, rows);
      FindInFront(rows, nombre);
      if IsLive(r) && r.nombre == nombre {
        HeldAt(table, done, Bare(r), Compact(rows[1..]));
      } else {
        FindInCompact(table, done + copy, rows[1..], nombre);
      }
    }
  }

  lemma {:induction false} FindInFront(rows: seq<Row>, nombre: string)
    requires rows != []
    ensures Find(rows, nombre) == if IsLive(rows[0]) && rows[0].nombre == nombre
                                  then Some((rows[0].descripcion, rows[0].modo, rows[0].path)) else Find(rows[1..], nombre)
  {
    var i, j := RowOf(rows, nombre), RowOf(rows[1..], nombre);
    assert j < |rows[1..]| ==> rows[j + 1] == rows[1..][j];
    assert 0 < i < |rows| ==> rows[1..][i - 1] == rows[i];
  }

  /** Loading what was saved into an empty table of the same size gives every server the same
      description, mode and path, and knows no other server. */
  lemma LoadAfterSave(rows: seq<Row>, empty: seq<Row>)
    requires Good(rows) && |empty| == |rows| && NoneLive(empty)
    ensures var (next, rc) := Loaded(empty, Saved(rows));
            rc == 0 && forall nombre :: Find(next, nombre) == Find(rows, nombre)
  {
    SavedReadsBack(rows);
    LoadRest(empty, [], rows);
    var next := Loaded(empty, Saved(rows)).0;
    forall nombre ensures Find(next, nombre) == Find(rows, nombre) {
      FindInCompact(next, [], rows, nombre);
    }
  }

  /** A loaded record can be found under its name exactly when it has one and the name is not too
      long to be stored. */
  lemma FoundWhenItFits(rows: seq<Row>, t: Server)
    requires Good(rows) && Added(rows, t).1 == 0
    ensures Find(Added(rows, t).0, t.nombre) == Some((Cut(t.descripcion, 255), t.modo, Cut(t.path, 255)))
            <==> 0 < |t.nombre| <= 32
  {
    var next := Added(rows, t).0;
    var i := if RowOf(rows, t.nombre) < |rows| then RowOf(rows, t.nombre) else FirstHole(rows);
    assert forall j :: 0 <= j < |rows| && j != i ==> next[j] == rows[j];
    if 0 < |t.nombre| <= NAME_WIDTH {
      assert next[i].nombre == t.nombre && IsLive(next[i]);
      assert forall j :: 0 <= j < i && IsLive(next[j]) ==> next[j].nombre != t.nombre;
      assert RowOf(next, t.nombre) == i;
    } else {
      assert forall j :: 0 <= j < |rows| && IsLive(next[j]) ==> |next[j].nombre| <= NAME_WIDTH;
      assert RowOf(next, t.nombre) == |next|;
    }
  }

  /** A server with a name of 33 characters, loaded into an empty table, is not found. */
  lemma LongNameIsLost(rows: seq<Row>)
    requires NoneLive(rows) && rows != []
    ensures exists t :: Added(rows, t).1 == 0 && Find(Added(rows, t).0, t.nombre) == None
  {
    var t := Server(Repeated('a', NAME_WIDTH + 1), "d", 0, "p");
    var next := Added(rows, t).0;
    assert RowOf(rows, t.nombre) == |rows| && FirstHole(rows) == 0;
    assert forall j :: 0 < j < |rows| ==> next[j] == rows[j];
    assert |next[0].nombre| == NAME_WIDTH;
    assert RowOf(next, t.nombre) == |next|;
    assert Added(rows, t).1 == 0 && Find(next, t.nombre) == None;
  }

  // ----- The form of the file -----

  /** A line that loading accepts: empty, a comment, or a record of at least four fields. */
  predicate IsAccepted(line: string) {
    line == "" || line[0] == '#' || |Fields(line, '|')| >= 4
  }

  /** Loading ends with 0 exactly when every line is accepted. At the first line that is not it ends with -1, and
      exactly the lines before it have been entered. */
  lemma {:induction false} LoadEndsAtBadLine(rows: seq<Row>, lines: seq<string>, k: nat)
    requires k <= |lines| && (forall i :: 0 <= i < k ==> IsAccepted(lines[i])) && (k < |lines| ==> !IsAccepted(lines[k]))
    ensures LoadedLines(rows, lines) == (LoadedLines(rows, lines[..k]).0, if k < |lines| then -1 else 0)
    decreases |lines|
  {
    if k > 0 {
      var next := if IsComment(lines[0]) then rows else Added(rows, Parsed(lines[0]).value).0;
      assert forall i :: 0 <= i < k - 1 ==> lines[1..][i] == lines[i + 1];
      LoadEndsAtBadLine(next, lines[1..], k - 1);
      LoadGoesOn(rows, lines);
      LoadGoesOn(rows, lines[..k]);
      assert lines[..k][1..] == lines[1..][..k - 1];
    }
  }

  lemma {:induction false} LoadGoesOn(rows: seq<Row>, lines: seq<string>)
    requires lines != [] && IsAccepted(lines[0])
    ensures LoadedLines(rows, lines) ==
            LoadedLines(if IsComment(lines[0]) then rows else Added(rows, Parsed(lines[0]).value).0, lines[1..])
  {}

  /** A row is saved as its name, description, mode and path, in this order, between bars. */
  lemma {:induction false} LineHasFields(r: Row)
    ensures LineOf(r) == r.nombre + "|" + r.descripcion + "|" + Show(r.modo) + "|" + r.path
  {
    var vs := [r.nombre, r.descripcion, Show(r.modo), r.path];
    assert vs[1..][1..][1..] == [r.path] && vs[1..][1..] == [Show(r.modo), r.path];
    assert Join(vs[1..][1..], '|') == Show(r.modo) + ['|'] + r.path;
    assert Join(vs[1..], '|') == r.descripcion + ['|'] + Join(vs[1..][1..], '|');
    assert Join(vs, '|') == r.nombre + ['|'] + Join(vs[1..], '|');
  }

  /** A line of that form is loaded as the server of that name, with that description, mode and path, if there is
      room for it. */
  lemma {:induction false} RecordIsEntered(rows: seq<Row>, nombre: string, descripcion: string, modo: int, path: string)
    requires Good(rows) && Plain(nombre) && Plain(descripcion) && Plain(path)
    requires 0 < |nombre| <= NAME_WIDTH && nombre[0] != '#'
    requires Find(rows, nombre).Some? || FirstHole(rows) < |rows|
    ensures var (next, rc) := Loaded(rows, nombre + "|" + descripcion + "|" + Show(modo) + "|" + path + "\n");
            rc == 0 && Find(next, nombre) == Some((Cut(descripcion, 255), modo, Cut(path, 255)))
  {
    var line := nombre + "|" + descripcion + "|" + Show(modo) + "|" + path;
    var t := Server(nombre, descripcion, modo, path);
    RecordParses(t, line);
    FoundWhenItFits(rows, t);
    assert [line][1..] == [];
    OneLine(t, line);
    assert LoadedLines(rows, [line]) == LoadedLines(Added(rows, t).0, []);
  }

  lemma {:induction false} OneLine(t: Server, line: string)
    requires Plain(t.nombre) && Plain(t.descripcion) && Plain(t.path)
    requires line == t.nombre + "|" + t.descripcion + "|" + Show(t.modo) + "|" + t.path
    ensures Lines(line + "\n") == [line]
  {
    ShowIsPlain(t.modo);
    TextReadsBack([line]);
    assert TextOf([line]) == line + "\n";
  }

  lemma {:induction false} RecordParses(t: Server, line: string)
    requires Plain(t.nombre) && Plain(t.descripcion) && Plain(t.path) && t.nombre != "" && t.nombre[0] != '#'
    requires line == t.nombre + "|" + t.descripcion + "|" + Show(t.modo) + "|" + t.path
    ensures !IsComment(line) && Parsed(line) == Some(t)
  {
    ShowIsPlain(t.modo);
    AtoiOfShow(t.modo, "");
    assert Show(t.modo) + "" == Show(t.modo);
    Regrouped(t.nombre, t.descripcion, Show(t.modo), t.path);
    FourFields(t.nombre, t.descripcion, Show(t.modo), t.path);
  }

  lemma Regrouped(a: string, b: string, c: string, d: string)
    ensures a + "|" + b + "|" + c + "|" + d == a + ['|'] + (b + ['|'] + (c + ['|'] + d))
  {}

  lemma {:induction false} FourFields(a: string, b: string, c: string, d: string)
    requires '|' !in a && '|' !in b && '|' !in c && '|' !in d
    ensures Fields(a + ['|'] + (b + ['|'] + (c + ['|'] + d)), '|') == [a, b, c, d]
  {
    FirstField(d, "", '|');
    OneFieldMore(c, d, [d]);
    OneFieldMore(b, c + ['|'] + d, [c, d]);
    OneFieldMore(a, b + ['|'] + (c + ['|'] + d), [b, c, d]);
  }

  lemma {:induction false} OneFieldMore(a: string, rest: string, fields: seq<string>)
    requires '|' !in a && Fields(rest, '|') == fields
    ensures Fields(a + ['|'] + rest, '|') == [a] + fields
  {
    FirstField(a, rest, '|');
  }
}
