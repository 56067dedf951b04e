/** What the stored-buffer server promises: it refines a map from id to transaction and bytes, over whole
    runs, and a request leaves other buffers alone. */
module BufferTheorems {
  import opened Common
  import opened IdAllocator
  import opened BufferServer

  // ----- Refinement of a map from id to transaction and bytes -----

  ghost function View(list: seq<Stored>): map<nat, Item> {
    map id | id in Ids(list) :: var b := list[IndexOf(list, id)]; Item(b.trans, b.data)
  }

  ghost function Lookup(m: map<nat, Item>, id: nat): Option<Item> {
    if id in m then Some(m[id]) else None
  }

  lemma ViewAt(list: seq<Stored>, id: nat)
    ensures Lookup(View(list), id) == ItemOf(list, id)
  {
    var i := IndexOf(list, id);
    assert i < |list| ==> Ids(list)[i] == id;
  }

  lemma LookupsDecide(m: map<nat, Item>, n: map<nat, Item>)
    requires forall id :: Lookup(m, id) == Lookup(n, id)
    ensures m == n
  {
    forall id ensures id in m <==> id in n {
      assert Lookup(m, id) == Lookup(n, id);
    }
    forall id | id in m ensures m[id] == n[id] {
      assert Lookup(m, id) == Lookup(n, id);
    }
  }

  /** A map that answers every lookup as the list does is its view. */
  lemma IsView(list: seq<Stored>, m: map<nat, Item>)
    requires forall id :: Lookup(m, id) == ItemOf(list, id)
    ensures View(list) == m
  {
    forall id ensures Lookup(View(list), id) == Lookup(m, id) {
      ViewAt(list, id);
    }
    LookupsDecide(View(list), m);
  }

  lemma IndexUnique(list: seq<Stored>, i: nat)
    requires Distinct(list) && i < |list|
    ensures IndexOf(list, list[i].id) == i
  {}

  /** What the store stands for: the last id handed out, the ids in the order in which they were
      handed out, and what each of them is bound to. */
  datatype Book = Book(last: nat, order: seq<nat>, items: map<nat, Item>)

  ghost function BookOf(st: Store): Book {
    Book(st.lastId, Ids(st.list), View(st.list))
  }

  /** Something is stored and every id but the one that the search skips is bound. */
  ghost predicate IsFull(b: Book) {
    b.order != [] && forall id :: 1 <= id <= MAX_ID && id != Skipped(b.last) ==> id in b.items
  }

  ghost function Unbound(b: Book, k: nat): Book
    requires k < |b.order|
  {
    b.(order := b.order[..k] + b.order[k + 1..], items := b.items - {b.order[k]})
  }

  /** The oldest binding of a transaction. */
  ghost predicate IsOldest(b: Book, trans: nat, k: nat) {
    && k < |b.order| && Lookup(b.items, b.order[k]).Some? && b.items[b.order[k]].trans == trans
    && forall j :: 0 <= j < k ==> Lookup(b.items, b.order[j]).Some? && b.items[b.order[j]].trans != trans
  }

  /** The book without its binding of `id`, the one at `k`; an emptied book forgets the last id. */
  ghost predicate IsDeleted(b: Book, id: nat, k: nat, b': Book) {
    k < |b.order| && b.order[k] == id && b' == if |b.order| == 1 then Book(0, [], map[]) else Unbound(b, k)
  }

  /** The book without the oldest binding of the transaction, the one at `k`. */
  ghost predicate IsEnded(b: Book, trans: nat, k: nat, b': Book) {
    IsOldest(b, trans, k) && b' == Unbound(b, k)
  }

  /** The reply to a request and the book after it. A failing request leaves the bindings alone. */
  ghost predicate BookStep(b: Book, req: Request, reply: Reply, b': Book) {
    match req
    case New(data, trans, timer) =>
      if data == [] then reply == Failed && b' == b
      else if IsFull(b) then reply == Failed && b' == b.(last := 0)
      else
        && 1 <= b'.last <= MAX_ID && b'.last !in b.items
        && (if timer.None? then reply == Failed && b' == b.(last := b'.last)
            else reply == NewId(b'.last) &&
                 b' == Book(b'.last, b.order + [b'.last], b.items[b'.last := Item(trans, data)]))
    case Add(id, data) =>
      if id in b.items && data != [] then
        var item := b.items[id];
        reply == Done && b' == b.(items := b.items[id := item.(data := item.data + data)])
      else reply == Failed && b' == b
    case Get(id, offset, maxlen) =>
      && b' == b
      && if id in b.items && offset < |b.items[id].data| then
           var data := b.items[id].data;
           reply == Chunk(data[offset..offset + Min(|data| - offset, maxlen)], |data|)
         else reply == Failed
    case Del(id) =>
      if id in b.items then reply == Done && exists k :: IsDeleted(b, id, k, b')
      else reply == Failed && b' == b
    case EndTrans(trans) =>
      if trans != 0 && exists id :: id in b.items && b.items[id].trans == trans then
        reply == Done && exists k :: IsEnded(b, trans, k, b')
      else reply == Failed && b' == b
    case TransNotice => reply == Done && b' == b
    case TooShort => reply == Failed && b' == b
    case Unknown => reply == Unresolved && b' == b
  }

  lemma IndexWithout(list: seq<Stored>, i: nat, id: nat)
    requires Distinct(list) && i < |list|
    ensures ItemOf(Without(list, i), id) == if id == list[i].id then None else ItemOf(list, id)
  {
    var list' := Without(list, i);
    var j, j' := IndexOf(list, id), IndexOf(list', id);
    if j' < |list'| {
      var k := if j' < i then j' else j' + 1;
      assert list'[j'] == list[k];
      IndexUnique(list, k);
    }
    if j < |list| && j != i {
      assert list'[if j < i then j else j - 1] == list[j];
    }
    IndexUnique(list, i);
  }

  /** Removing the element at `i` unbinds its id and nothing else. */
  lemma ViewWithout(list: seq<Stored>, i: nat)
    requires Distinct(list) && i < |list|
    ensures View(Without(list, i)) == View(list) - {list[i].id}
    ensures Ids(Without(list, i)) == Ids(list)[..i] + Ids(list)[i + 1..]
  {
    forall id ensures Lookup(View(list) - {list[i].id}, id) == ItemOf(Without(list, i), id) {
      ViewAt(list, id);
      IndexWithout(list, i, id);
    }
    IsView(Without(list, i), View(list) - {list[i].id});
  }

  lemma IndexInAppend(list: seq<Stored>, b: Stored, id: nat)
    requires ItemOf(list, b.id) == None
    ensures ItemOf(list + [b], id) == if id == b.id then Some(Item(b.trans, b.data)) else ItemOf(list, id)
  {
    var i := IndexOf(list + [b], id);
    if IndexOf(list, id) < |list| {
      assert (list + [b])[IndexOf(list, id)].id == id;
    }
    if i < |list| {
      assert list[i].id == id;
    }
    if b.id == id {
      assert (list + [b])[|list|].id == id;
    }
  }

  lemma ViewAppend(list: seq<Stored>, b: Stored)
    requires ItemOf(list, b.id) == None
    ensures View(list + [b]) == View(list)[b.id := Item(b.trans, b.data)] && b.id !in View(list)
    ensures Ids(list + [b]) == Ids(list) + [b.id]
  {
    var m := View(list)[b.id := Item(b.trans, b.data)];
    forall id ensures Lookup(m, id) == ItemOf(list + [b], id) {
      ViewAt(list, id);
      IndexInAppend(list, b, id);
    }
    IsView(list + [b], m);
    ViewAt(list, b.id);
  }

  lemma IndexInUpdate(list: seq<Stored>, i: nat, data: Bytes, id: nat)
    requires Distinct(list) && i < |list|
    ensures var list' := list[i := list[i].(data := data)];
            Distinct(list') && ItemOf(list', id) == if id == list[i].id then Some(Item(list[i].trans, data)) else ItemOf(list, id)
  {
    var list' := list[i := list[i].(data := data)];
    IndexUnique(list, i);
    IndexUnique(list', i);
    var j, j' := IndexOf(list, id), IndexOf(list', id);
    if j < |list| {
      IndexUnique(list', j);
    }
    if j' < |list| {
      IndexUnique(list, j');
    }
  }

  lemma ViewUpdate(list: seq<Stored>, i: nat, data: Bytes)
    requires Distinct(list) && i < |list|
    ensures var list' := list[i := list[i].(data := data)];
            View(list') == View(list)[list[i].id := Item(list[i].trans, data)] && Ids(list') == Ids(list)
  {
    var list' := list[i := list[i].(data := data)];
    var m := View(list)[list[i].id := Item(list[i].trans, data)];
    forall id ensures Lookup(m, id) == ItemOf(list', id) {
      ViewAt(list, id);
      IndexInUpdate(list, i, data, id);
    }
    IsView(list', m);
  }

  lemma LastIsNew(list: seq<Stored>)
    requires Distinct(list) && list != []
    ensures var n := |list| - 1;
            Distinct(list[..n]) && ItemOf(list[..n], list[n].id) == None && list == list[..n] + [list[n]]
  {
    var n := |list| - 1;
    assert forall i :: 0 <= i < n ==> list[..n][i] == list[i];
  }

  lemma OneMoreStored(list: seq<Stored>, b: Stored)
    requires ItemOf(list, b.id) == None
    ensures |View(list + [b])| == |View(list)| + 1
  {
    ViewAppend(list, b);
  }

  lemma {:induction false} ViewSize(list: seq<Stored>)
    requires Distinct(list)
    ensures |View(list)| == |list|
    decreases |list|
  {
    if list == [] {
      assert View(list) == map[];
    } else {
      var n := |list| - 1;
      LastIsNew(list);
      ViewSize(list[..n]);
      OneMoreStored(list[..n], list[n]);
    }
  }

  lemma FreshIdUnbound(st: Store)
    requires Good(st)
    ensures ItemOf(st.list, NextId(Ids(st.list), st.lastId)) == None
  {
    FreshId(st);
  }

  /** The search fails exactly when the book is full, and then at least 8191 buffers are stored. */
  lemma NoRoom(st: Store)
    requires Good(st)
    ensures NextId(Ids(st.list), st.lastId) == 0 <==> IsFull(BookOf(st))
    ensures IsFull(BookOf(st)) ==> |View(st.list)| >= MAX_ID - 1
  {
    NextIdSpec(Ids(st.list), st.lastId);
    assert forall id :: id in View(st.list) <==> id in Ids(st.list);
    ViewSize(st.list);
    if |st.list| < MAX_ID - 1 {
      RoomMeansSuccess(Ids(st.list), st.lastId);
    }
  }

  /** A buffer can be stored if it has data, its timer was set and fewer than 8191 are stored. */
  lemma StoredWhenRoom(st: Store, data: Bytes, trans: nat, timer: Option<nat>)
    requires Good(st) && data != [] && timer.Some? && |st.list| < MAX_ID - 1
    ensures Process(st, New(data, trans, timer)).1.NewId?
  {
    RoomMeansSuccess(Ids(st.list), st.lastId);
  }

  lemma ViewOfElement(list: seq<Stored>, i: nat)
    requires Distinct(list) && i < |list|
    ensures list[i].id in View(list) && View(list)[list[i].id] == Item(list[i].trans, list[i].data)
    ensures Ids(list)[i] == list[i].id
  {
    IndexUnique(list, i);
    ViewAt(list, list[i].id);
  }

  /** Every request acts on the stored buffers as the book says. */
  lemma ProcessRefinesBook(st: Store, req: Request)
    requires Good(st)
    ensures BookStep(BookOf(st), req, Process(st, req).1, BookOf(Process(st, req).0))
  {
    match req
    case New(_, _, _) => NewRefinesBook(st, req);
    case Add(_, _) => AddRefinesBook(st, req);
    case Get(_, _, _) => GetRefinesBook(st, req);
    case Del(_) => DelRefinesBook(st, req);
    case EndTrans(_) => EndTransRefinesBook(st, req);
    case TransNotice =>
    case TooShort =>
    case Unknown =>
  }

  /** The answer to a request for a piece of what is stored under an id. */
  function PieceOf(item: Option<Item>, offset: nat, maxlen: nat): Reply {
    if item.None? || offset >= |item.value.data| then Failed
    else
      var data := item.value.data;
      Chunk(data[offset..offset + Min(|data| - offset, maxlen)], |data|)
  }

  lemma GetAnswers(st: Store, id: nat, offset: nat, maxlen: nat)
    ensures Process(st, Get(id, offset, maxlen)) == (st, PieceOf(ItemOf(st.list, id), offset, maxlen))
  {}

  lemma PieceInBook(b: Book, id: nat, offset: nat, maxlen: nat)
    ensures BookStep(b, Get(id, offset, maxlen), PieceOf(Lookup(b.items, id), offset, maxlen), b)
  {}

  lemma GetRefinesBook(st: Store, req: Request)
    requires Good(st) && req.Get?
    ensures BookStep(BookOf(st), req, Process(st, req).1, BookOf(Process(st, req).0))
  {
    ViewAt(st.list, req.id);
    GetAnswers(st, req.id, req.offset, req.maxlen);
    PieceInBook(BookOf(st), req.id, req.offset, req.maxlen);
  }

  lemma NewRefinesBook(st: Store, req: Request)
    requires Good(st) && req.New?
    ensures BookStep(BookOf(st), req, Process(st, req).1, BookOf(Process(st, req).0))
  {
    FreshId(st);
    FreshIdUnbound(st);
    NoRoom(st);
    ViewAt(st.list, NextId(Ids(st.list), st.lastId));
    var (st', reply) := Process(st, req);
    if reply.NewId? {
      ViewAppend(st.list, Stored(reply.id, req.trans, req.timer.value, req.data));
    }
  }

  lemma AddRefinesBook(st: Store, req: Request)
    requires Good(st) && req.Add?
    ensures BookStep(BookOf(st), req, Process(st, req).1, BookOf(Process(st, req).0))
  {
    ViewAt(st.list, req.id);
    var i := IndexOf(st.list, req.id);
    if i < |st.list| {
      ViewUpdate(st.list, i, st.list[i].data + req.data);
    }
  }

  lemma DelRefinesBook(st: Store, req: Request)
    requires Good(st) && req.Del?
    ensures BookStep(BookOf(st), req, Process(st, req).1, BookOf(Process(st, req).0))
  {
    ViewAt(st.list, req.id);
    var i := IndexOf(st.list, req.id);
    if i < |st.list| {
      ViewOfElement(st.list, i);
      IsUnbound(st, i);
      assert IsDeleted(BookOf(st), req.id, i, BookOf(Process(st, req).0));
    }
  }

  lemma IsUnbound(st: Store, i: nat)
    requires Good(st) && i < |st.list|
    ensures BookOf(st.(list := Without(st.list, i))) == Unbound(BookOf(st), i)
    ensures |st.list| == 1 <==> Without(st.list, i) == []
    ensures |st.list| == 1 ==> BookOf(Store([], 0)) == Book(0, [], map[])
  {
    ViewWithout(st.list, i);
  }

  /** The first buffer of a transaction is its oldest binding. */
  lemma FirstIsOldest(st: Store, trans: nat)
    requires Good(st) && First(st.list, OfTrans(trans)) < |st.list|
    ensures var i := First(st.list, OfTrans(trans));
            IsOldest(BookOf(st), trans, i) && Ids(st.list)[i] in View(st.list)
  {
    var i := First(st.list, OfTrans(trans));
    forall j | 0 <= j <= i
      ensures var id := Ids(st.list)[j]; Lookup(View(st.list), id) == Some(Item(st.list[j].trans, st.list[j].data))
    {
      ViewOfElement(st.list, j);
    }
  }

  lemma NoneOfTrans(st: Store, trans: nat)
    requires Good(st) && First(st.list, OfTrans(trans)) == |st.list|
    ensures forall id :: id in View(st.list) ==> View(st.list)[id].trans != trans
  {
    forall id | id in View(st.list) ensures View(st.list)[id].trans != trans {
      var j :| 0 <= j < |st.list| && Ids(st.list)[j] == id;
      ViewOfElement(st.list, j);
    }
  }

  lemma EndTransRefinesBook(st: Store, req: Request)
    requires Good(st) && req.EndTrans?
    ensures BookStep(BookOf(st), req, Process(st, req).1, BookOf(Process(st, req).0))
  {
    var i := First(st.list, OfTrans(req.trans));
    if req.trans != 0 && i < |st.list| {
      FirstIsEnded(st, req.trans);
      assert Process(st, req) == (st.(list := Without(st.list, i)), Done);
    } else {
      if i == |st.list| {
        NoneOfTrans(st, req.trans);
      }
      assert Process(st, req) == (st, Failed);
    }
  }

  lemma FirstIsEnded(st: Store, trans: nat)
    requires Good(st) && First(st.list, OfTrans(trans)) < |st.list|
    ensures var i := First(st.list, OfTrans(trans));
            IsEnded(BookOf(st), trans, i, BookOf(st.(list := Without(st.list, i))))
    ensures exists id :: id in View(st.list) && View(st.list)[id].trans == trans
  {
    FirstIsOldest(st, trans);
    IsUnbound(st, First(st.list, OfTrans(trans)));
  }

  // ----- Whole runs -----

  function Run(st: Store, reqs: seq<Request>): (Store, seq<Reply>)
    decreases |reqs|
  {
    if reqs == [] then (st, [])
    else
      var (next, reply) := Process(st, reqs[0]);
      var (last, replies) := Run(next, reqs[1..]);
      (last, [reply] + replies)
  }

  /** The replies and the last book of a run are those of single steps from book to book. */
  ghost predicate BookRun(b: Book, reqs: seq<Request>, replies: seq<Reply>, last: Book)
    decreases |reqs|
  {
    if reqs == [] then replies == [] && last == b
    else
      replies != [] &&
      exists next :: BookStep(b, reqs[0], replies[0], next) && BookRun(next, reqs[1..], replies[1..], last)
  }

  lemma {:induction false} RunRefinesBook(st: Store, reqs: seq<Request>)
    requires Good(st)
    ensures var (last, replies) := Run(st, reqs);
            Good(last) && |replies| == |reqs| && BookRun(BookOf(st), reqs, replies, BookOf(last))
    decreases |reqs|
  {
    if reqs != [] {
      var (next, reply) := Process(st, reqs[0]);
      ProcessKeepsGood(st, reqs[0]);
      ProcessRefinesBook(st, reqs[0]);
      RunRefinesBook(next, reqs[1..]);
      OneMoreStep(BookOf(st), reqs, reply, BookOf(next), Run(next, reqs[1..]).1, BookOf(Run(next, reqs[1..]).0));
    }
  }

  lemma {:induction false} OneMoreStep(b: Book, reqs: seq<Request>, reply: Reply, next: Book, replies: seq<Reply>, last: Book)
    requires reqs != [] && BookStep(b, reqs[0], reply, next) && BookRun(next, reqs[1..], replies, last)
    ensures BookRun(b, reqs, [reply] + replies, last)
  {
    assert ([reply] + replies)[1..] == replies;
  }

  /** In every state that a new server reaches, ids are distinct and between 1 and 8192 and data is not
      empty, and the whole run, with all its replies, is one of the book. */
  lemma {:induction false} EveryRunRefinesBook(reqs: seq<Request>)
    ensures var (last, replies) := Run(Store([], 0), reqs);
            Good(last) && |replies| == |reqs| && BookRun(Book(0, [], map[]), reqs, replies, BookOf(last))
  {
    var start := Store([], 0);
    assert BookOf(start) == Book(0, [], map[]);
    RunRefinesBook(start, reqs);
  }

  // ----- What a request leaves alone -----

  lemma SparedBufferStays(st: Store, req: Request, id: nat, trans: nat, data: Bytes)
    requires Good(st) && Holds(st, id, trans, data) && Spares(req, id, trans)
    ensures Holds(Process(st, req).0, id, trans, data)
  {
    var i :| 0 <= i < |st.list| && st.list[i].id == id && st.list[i].trans == trans && st.list[i].data == data;
    var list' := Process(st, req).0.list;
    match req
    case Del(id') => StaysWithout(st.list, IndexOf(st.list, id'), i, list');
    case EndTrans(trans') => StaysWithout(st.list, First(st.list, OfTrans(trans')), i, list');
    case _ => StaysInPlace(st, req, i);
  }

  lemma StaysInPlace(st: Store, req: Request, i: nat)
    requires i < |st.list| && !req.Del? && !req.EndTrans? && (req.Add? ==> req.id != st.list[i].id)
    ensures i < |Process(st, req).0.list| && Process(st, req).0.list[i] == st.list[i]
  {}

  lemma StaysWithout(list: seq<Stored>, k: nat, i: nat, list': seq<Stored>)
    requires i < |list|
    requires list' == list || (k < |list| && k != i && list' == Without(list, k))
    ensures list[i] in list'
  {
    if list' != list {
      assert list'[if i < k then i else i - 1] == list[i];
    }
  }

  lemma HeldData(st: Store, id: nat, trans: nat, data: Bytes)
    requires Good(st) && Holds(st, id, trans, data)
    ensures ItemOf(st.list, id) == Some(Item(trans, data))
  {
    var i :| 0 <= i < |st.list| && st.list[i].id == id && st.list[i].trans == trans && st.list[i].data == data;
    IndexUnique(st.list, i);
  }
}
