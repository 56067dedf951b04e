/** The stored-buffer server (gmsbuffer.cc): a vector of buffers found by id. Each request is
    a function from state to state and reply, which the class carries out on its fields. */
module BufferServer {
  import opened Common
  import opened IdAllocator

  /** One element of `m_buffer_list`. */
  datatype Stored = Stored(id: nat, trans: nat, timer: nat, data: Bytes)

  /** The requests of `Process` and, as `EndTrans`, the call of `DeleteTrans`. `New` carries
      the answer of the `.set_timer` call made on the way, None if it failed. */
  datatype Request =
    | New(data: Bytes, trans: nat, timer: Option<nat>)
    | Add(id: nat, data: Bytes)
    | Get(id: nat, offset: nat, maxlen: nat)
    | Del(id: nat)
    | EndTrans(trans: nat)
    | TransNotice // `.committrans` or `.aborttrans` as a message
    | TooShort    // a message shorter than its structure
    | Unknown     // a service of another name

  /** `Failed` is GME_UNDEFINED and `Unresolved` GME_SVC_UNRESOLVED; the others are GME_OK with what
      is returned. */
  datatype Reply =
    | Failed
    | Unresolved
    | Done
    | NewId(id: nat)
    | Chunk(data: Bytes, totlen: nat)

  datatype Store = Store(list: seq<Stored>, lastId: nat)

  function Ids(list: seq<Stored>): (r: seq<nat>)
    ensures |r| == |list|
  {
    seq(|list|, i requires 0 <= i < |list| => list[i].id)
  }

  /** Index of the first buffer with this id, or the length of the list. */
  function IndexOf(list: seq<Stored>, id: nat): (i: nat)
    ensures i <= |list|
    ensures i < |list| ==> list[i].id == id
    ensures forall j :: 0 <= j < i ==> list[j].id != id
  {
    First(list, (b: Stored) => b.id == id)
  }

  /** The buffer belongs to the transaction. */
  function OfTrans(trans: nat): Stored -> bool {
    (b: Stored) => b.trans == trans
  }

  function Without(list: seq<Stored>, i: nat): seq<Stored>
    requires i < |list|
  {
    list[..i] + list[i + 1..]
  }

  function Process(st: Store, req: Request): (Store, Reply) {
    match req
    case New(data, trans, timer) =>
      if data == [] then (st, Failed)
      else
        var id := NextId(Ids(st.list), st.lastId);
        if id == 0 || timer.None? then (st.(lastId := id), Failed)
        else (Store(st.list + [Stored(id, trans, timer.value, data)], id), NewId(id))
    case Add(id, data) =>
      var i := IndexOf(st.list, id);
      if data == [] || i == |st.list| then (st, Failed)
      else
        var b := st.list[i];
        (st.(list := st.list[i := b.(data := b.data + data)]), Done)
    case Get(id, offset, maxlen) =>
      var i := IndexOf(st.list, id);
      if i == |st.list| || offset >= |st.list[i].data| then (st, Failed)
      else
        var data := st.list[i].data;
        (st, Chunk(data[offset..offset + Min(|data| - offset, maxlen)], |data|))
    case Del(id) =>
      var i := IndexOf(st.list, id);
      if i == |st.list| then (st, Failed)
      else
        var rest := Without(st.list, i);
        (Store(rest, if rest == [] then 0 else st.lastId), Done)
    case EndTrans(trans) =>
      var i := First(st.list, OfTrans(trans));
      if trans == 0 || i == |st.list| then (st, Failed)
      else (st.(list := Without(st.list, i)), Done)
    case TransNotice => (st, Done)
    case TooShort => (st, Failed)
    case Unknown => (st, Unresolved)
  }

  // ----- What every request keeps -----

  ghost predicate Distinct(list: seq<Stored>) {
    forall i, j :: 0 <= i < j < |list| ==> list[i].id != list[j].id
  }

  ghost predicate Good(st: Store) {
    && Distinct(st.list)
    && (forall b :: b in st.list ==> 1 <= b.id <= MAX_ID && b.data != [])
    && (st.list != [] ==> st.lastId <= MAX_ID)
  }

  lemma FreshId(st: Store)
    requires Good(st)
    ensures var id := NextId(Ids(st.list), st.lastId);
            id <= MAX_ID && forall i :: 0 <= i < |st.list| ==> st.list[i].id != id
  {
    var ids := Ids(st.list);
    NextIdSpec(ids, st.lastId);
    assert forall i :: 0 <= i < |st.list| ==> ids[i] == st.list[i].id;
  }

  /** Part of a good list is good: buffers removed, or one of them with other data. */
  lemma WithoutKeepsGood(list: seq<Stored>, i: nat)
    requires Distinct(list) && i < |list|
    ensures Distinct(Without(list, i))
    ensures forall b :: b in Without(list, i) ==> b in list
  {}

  lemma NewKeepsGood(st: Store, req: Request)
    requires Good(st) && req.New?
    ensures Good(Process(st, req).0)
  {
    FreshId(st);
  }

  lemma ProcessKeepsGood(st: Store, req: Request)
    requires Good(st)
    ensures Good(Process(st, req).0)
  {
    match req
    case New(_, _, _) => NewKeepsGood(st, req);
    case Add(_, _) =>
    case Get(_, _, _) =>
    case Del(id) =>
      if IndexOf(st.list, id) < |st.list| {
        WithoutKeepsGood(st.list, IndexOf(st.list, id));
      }
    case EndTrans(trans) =>
      if First(st.list, OfTrans(trans)) < |st.list| {
        WithoutKeepsGood(st.list, First(st.list, OfTrans(trans)));
      }
    case _ =>
  }

  // ----- What is stored -----

  datatype Item = Item(trans: nat, data: Bytes)

  /** What is stored under an id. */
  ghost function ItemOf(list: seq<Stored>, id: nat): Option<Item> {
    var i := IndexOf(list, id);
    if i < |list| then Some(Item(list[i].trans, list[i].data)) else None
  }

  /** The buffer stored under an id and the transaction it belongs to. */
  ghost predicate Holds(st: Store, id: nat, trans: nat, data: Bytes) {
    exists i :: 0 <= i < |st.list| && st.list[i].id == id && st.list[i].trans == trans && st.list[i].data == data
  }

  /** A request that neither names this buffer nor ends its transaction. */
  ghost predicate Spares(req: Request, id: nat, trans: nat) {
    match req
    case Add(id', _) => id' != id
    case Del(id') => id' != id
    case EndTrans(trans') => trans' == 0 || trans' != trans
    case _ => true
  }

  // ----- The server object -----

  class Server {
    var list: seq<Stored>
    var lastId: nat

    ghost function State(): Store
      reads this
    {
      Store(list, lastId)
    }

    constructor ()
      ensures State() == Store([], 0)
    {
      list := [];
      lastId := 0;
    }

    method FindId(id: nat) returns (i: nat)
      ensures i == IndexOf(list, id)
    {
      i := 0;
      while i < |list|
        invariant i <= |list| && forall j :: 0 <= j < i ==> list[j].id != id
      {
        if list[i].id == id {
          break;
        }
        i := i + 1;
      }
    }

    method FindTrans(trans: nat) returns (i: nat)
      ensures i == First(list, OfTrans(trans))
    {
      i := 0;
      while i < |list|
        invariant i <= |list| && forall j :: 0 <= j < i ==> list[j].trans != trans
      {
        if list[i].trans == trans {
          break;
        }
        i := i + 1;
      }
    }

    method NewBuffer(data: Bytes, trans: nat, timer: Option<nat>) returns (reply: Reply)
      modifies this
      ensures (State(), reply) == Process(old(State()), New(data, trans, timer))
    {
      if |data| == 0 {
        return Failed;
      }
      lastId := GetNewId(Ids(list), lastId);
      if lastId == 0 {
        return Failed;
      }
      if timer.None? {
        return Failed;
      }
      list := list + [Stored(lastId, trans, timer.value, data)];
      return NewId(lastId);
    }

    method AddBuffer(id: nat, data: Bytes) returns (reply: Reply)
      modifies this
      ensures (State(), reply) == Process(old(State()), Add(id, data))
    {
      if |data| == 0 {
        return Failed;
      }
      var i := FindId(id);
      if i == |list| {
        return Failed;
      }
      list := list[i := list[i].(data := list[i].data + data)];
      return Done;
    }

    method GetBuffer(id: nat, offset: nat, maxlen: nat) returns (reply: Reply)
      ensures (State(), reply) == Process(State(), Get(id, offset, maxlen))
    {
      var i := FindId(id);
      if i == |list| {
        return Failed;
      }
      if |list[i].data| == 0 {
        return Failed;
      }
      if offset >= |list[i].data| {
        return Failed;
      }
      var len := Min(|list[i].data| - offset, maxlen);
      return Chunk(list[i].data[offset..offset + len], |list[i].data|);
    }

    method DelBuffer(id: nat) returns (reply: Reply)
      modifies this
      ensures (State(), reply) == Process(old(State()), Del(id))
    {
      var i := FindId(id);
      if i == |list| {
        return Failed;
      }
      list := list[..i] + list[i + 1..];
      if |list| == 0 {
        lastId := 0;
      }
      return Done;
    }

    method DeleteTrans(trans: nat) returns (reply: Reply)
      modifies this
      ensures (State(), reply) == Process(old(State()), EndTrans(trans))
    {
      if trans == 0 {
        return Failed;
      }
      var i := FindTrans(trans);
      if i == |list| {
        return Failed;
      }
      list := list[..i] + list[i + 1..];
      return Done;
    }

    /** The dispatch of `Process` on the name of the service, and the call at the end of a transaction. */
    method Serve(req: Request) returns (reply: Reply)
      modifies this
      ensures (State(), reply) == Process(old(State()), req)
    {
      match req
      case New(data, trans, timer) => reply := NewBuffer(data, trans, timer);
      case Add(id, data) => reply := AddBuffer(id, data);
      case Get(id, offset, maxlen) => reply := GetBuffer(id, offset, maxlen);
      case Del(id) => reply := DelBuffer(id);
      case EndTrans(trans) => reply := DeleteTrans(trans);
      case TransNotice => reply := Done;
      case TooShort => reply := Failed;
      case Unknown => reply := Unresolved;
    }
  }
}
