/** The table of services in shared memory (gmontdb.cc:364-395, 795-928): an array of slots, the
    unused ones with an empty name, in which each live slot counts how often one server has
    subscribed to one service. */
module ServiceTable {
  import opened Common
  import opened Strings

  const NAME_WIDTH: nat := 32

  datatype Key = Key(servicio: string, tipo: char, server: string)

  datatype Service = Service(key: Key, suscripciones: int)

  predicate IsLive(x: Service) {
    x.key.servicio != ""
  }

  /** The slot of a key, or the length of the table. */
  function SlotOf(slots: seq<Service>, key: Key): (i: nat)
    ensures i <= |slots|
    ensures i < |slots| ==> IsLive(slots[i]) && slots[i].key == key
    ensures forall j :: 0 <= j < i ==> !(IsLive(slots[j]) && slots[j].key == key)
  {
    First(slots, (x: Service) => IsLive(x) && x.key == key)
  }

  /** The first unused slot, or the length of the table. */
  function FirstHole(slots: seq<Service>): (i: nat)
    ensures i <= |slots|
    ensures i < |slots| ==> !IsLive(slots[i])
    ensures forall j :: 0 <= j < i ==> IsLive(slots[j])
  {
    First(slots, (x: Service) => !IsLive(x))
  }

  function Stored(key: Key): Service {
    Service(Key(Cut(key.servicio, NAME_WIDTH), key.tipo, Cut(key.server, NAME_WIDTH)), 1)
  }

  /** The table after `Add`, and its result. */
  function Added(slots: seq<Service>, key: Key): (seq<Service>, int) {
    var i := SlotOf(slots, key);
    var hole := FirstHole(slots);
    if i < |slots| then (slots[i := slots[i].(suscripciones := slots[i].suscripciones + 1)], 0)
    else if hole < |slots| then (slots[hole := Stored(key)], 0)
    else (slots, -1)
  }

  function Less(x: Service): Service {
    var left := x.suscripciones - 1;
    Service(if left <= 0 then x.key.(servicio := "") else x.key, left)
  }

  /** The table after `Remove`, and its result. */
  function Removed(slots: seq<Service>, key: Key): (seq<Service>, int) {
    var i := SlotOf(slots, key);
    if i < |slots| then (slots[i := Less(slots[i])], 0) else (slots, -1)
  }

  // ----- The multiset that the table stands for -----

  ghost predicate Fits(key: Key) {
    0 < |key.servicio| <= NAME_WIDTH && |key.server| <= NAME_WIDTH
  }

  ghost predicate SlotsFit(slots: seq<Service>) {
    forall i :: 0 <= i < |slots| && IsLive(slots[i]) ==> Fits(slots[i].key) && slots[i].suscripciones >= 1
  }

  ghost predicate DistinctKeys(slots: seq<Service>) {
    forall i, j :: 0 <= i < j < |slots| && IsLive(slots[i]) && IsLive(slots[j]) ==> slots[i].key != slots[j].key
  }

  ghost predicate Good(slots: seq<Service>) {
    SlotsFit(slots) && DistinctKeys(slots)
  }

  function CopiesIn(x: Service): multiset<Key> {
    if IsLive(x) && x.suscripciones > 0 then multiset{}[x.key := x.suscripciones] else multiset{}
  }

  function Copies(slots: seq<Service>): multiset<Key> {
    if slots == [] then multiset{} else CopiesIn(slots[0]) + Copies(slots[1..])
  }

  lemma GoodRest(slots: seq<Service>)
    requires Good(slots) && slots != []
    ensures Good(slots[1..])
    ensures IsLive(slots[0]) ==> SlotOf(slots[1..], slots[0].key) == |slots[1..]|
  {
    assert forall i :: 0 <= i < |slots[1..]| ==> slots[1..][i] == slots[i + 1];
  }

  /** The copies of a key are the subscriptions counted in its slot. */
  lemma {:induction false} CopiesOfKey(slots: seq<Service>, key: Key)
    requires Good(slots)
    ensures Copies(slots)[key] == CountOf(slots, key)
    decreases |slots|
  {
    if slots == [] {
    } else {
      GoodRest(slots);
      CopiesOfKey(slots[1..], key);
      assert Copies(slots)[key] == CopiesIn(slots[0])[key] + Copies(slots[1..])[key];
    }
  }

  // ----- One step -----

  function CountOf(slots: seq<Service>, key: Key): int {
    var i := SlotOf(slots, key);
    if i < |slots| then slots[i].suscripciones else 0
  }

  /** Writing one slot changes the count of at most the key that it had and the key that it gets. */
  lemma CountAfterWrite(slots: seq<Service>, i: nat, x: Service, key: Key)
    requires i < |slots| && DistinctKeys(slots) && DistinctKeys(slots[i := x])
    ensures CountOf(slots[i := x], key) ==
            if IsLive(x) && x.key == key then x.suscripciones
            else if IsLive(slots[i]) && slots[i].key == key then 0
            else CountOf(slots, key)
  {
    var next := slots[i := x];
    var a, b := SlotOf(slots, key), SlotOf(next, key);
    assert a < |slots| ==> (a == i || next[a] == slots[a]);
    assert b < |slots| ==> (b == i || next[b] == slots[b]);
    assert next[i] == x;
  }

  lemma {:induction false} SameCopies(slots: seq<Service>, m: multiset<Key>)
    requires Good(slots) && forall k :: m[k] == CountOf(slots, k)
    ensures Copies(slots) == m
  {
    forall k ensures Copies(slots)[k] == m[k] {
      CopiesOfKey(slots, k);
    }
  }

  lemma AddedGood(slots: seq<Service>, key: Key)
    requires Good(slots) && Fits(key)
    ensures Good(Added(slots, key).0)
  {
    var i, hole := SlotOf(slots, key), FirstHole(slots);
    if i == |slots| && hole < |slots| {
      var next := slots[hole := Stored(key)];
      forall a, b | 0 <= a < b < |next| && IsLive(next[a]) && IsLive(next[b]) ensures next[a].key != next[b].key {
        assert a != hole ==> next[a] == slots[a];
        assert b != hole ==> next[b] == slots[b];
      }
    }
  }

  lemma {:induction false} AddedCopies(slots: seq<Service>, key: Key)
    requires Good(slots) && Fits(key) && Added(slots, key).1 == 0
    ensures Copies(Added(slots, key).0) == Copies(slots) + multiset{key}
  {
    AddedGood(slots, key);
    var next := Added(slots, key).0;
    var i := if SlotOf(slots, key) < |slots| then SlotOf(slots, key) else FirstHole(slots);
    forall k ensures (Copies(slots) + multiset{key})[k] == CountOf(next, k) {
      CopiesOfKey(slots, k);
      CountAfterWrite(slots, i, next[i], k);
    }
    SameCopies(next, Copies(slots) + multiset{key});
  }

  lemma {:induction false} AddedStep(slots: seq<Service>, key: Key)
    requires Good(slots) && Fits(key)
    ensures var (next, rc) := Added(slots, key);
            && Good(next) && |next| == |slots|
            && Copies(next) == (if rc == 0 then Copies(slots) + multiset{key} else Copies(slots))
            && (rc == -1 <==> key !in Copies(slots) && FirstHole(slots) == |slots|)
  {
    AddedGood(slots, key);
    CopiesOfKey(slots, key);
    if Added(slots, key).1 == 0 {
      AddedCopies(slots, key);
    }
  }

  lemma {:induction false} RemovedStep(slots: seq<Service>, key: Key)
    requires Good(slots)
    ensures var (next, rc) := Removed(slots, key);
            && Good(next) && |next| == |slots|
            && Copies(next) == (if rc == 0 then Copies(slots) - multiset{key} else Copies(slots))
            && (rc == -1 <==> key !in Copies(slots))
  {
    CopiesOfKey(slots, key);
    var i := SlotOf(slots, key);
    if i < |slots| {
      var next := Removed(slots, key).0;
      forall k ensures (Copies(slots) - multiset{key})[k] == CountOf(next, k) {
        CopiesOfKey(slots, k);
        CountAfterWrite(slots, i, next[i], k);
      }
      SameCopies(next, Copies(slots) - multiset{key});
    }
  }

  // ----- The bounded multiset -----

  ghost function KeysOf(m: multiset<Key>): set<Key> {
    set k | k in m
  }

  lemma {:induction false} KeysOfRest(slots: seq<Service>)
    requires Good(slots) && slots != []
    ensures |KeysOf(Copies(slots))| == |KeysOf(Copies(slots[1..]))| + if IsLive(slots[0]) then 1 else 0
  {
    var rest, key := slots[1..], slots[0].key;
    GoodRest(slots);
    if IsLive(slots[0]) {
      CopiesOfKey(rest, key);
      assert KeysOf(Copies(slots)) == KeysOf(Copies(rest)) + {key};
    } else {
      assert KeysOf(Copies(slots)) == KeysOf(Copies(rest));
    }
  }

  lemma {:induction false} LiveKeys(slots: seq<Service>)
    requires Good(slots)
    ensures |KeysOf(Copies(slots))| <= |slots|
    ensures |KeysOf(Copies(slots))| == |slots| <==> FirstHole(slots) == |slots|
    decreases |slots|
  {
    if slots == [] {
      assert KeysOf(Copies(slots)) == {};
    } else {
      GoodRest(slots);
      LiveKeys(slots[1..]);
      KeysOfRest(slots);
    }
  }

  datatype Op = Subscribe(key: Key) | Unsubscribe(key: Key)

  function Apply(slots: seq<Service>, op: Op): (seq<Service>, int) {
    match op
    case Subscribe(key) => Added(slots, key)
    case Unsubscribe(key) => Removed(slots, key)
  }

  /** The same operation on a multiset that holds at most `n` different keys. */
  ghost function BagStep(m: multiset<Key>, n: nat, op: Op): (multiset<Key>, int) {
    match op
    case Subscribe(key) => if key in m || |KeysOf(m)| < n then (m + multiset{key}, 0) else (m, -1)
    case Unsubscribe(key) => if key in m then (m - multiset{key}, 0) else (m, -1)
  }

  function Run(slots: seq<Service>, ops: seq<Op>): (r: (seq<Service>, seq<int>))
    ensures |r.1| == |ops|
    decreases |ops|
  {
    if ops == [] then (slots, [])
    else
      var (next, rc) := Apply(slots, ops[0]);
      var (last, rcs) := Run(next, ops[1..]);
      (last, [rc] + rcs)
  }

  ghost function BagRun(m: multiset<Key>, n: nat, ops: seq<Op>): (multiset<Key>, seq<int>)
    decreases |ops|
  {
    if ops == [] then (m, [])
    else
      var (next, rc) := BagStep(m, n, ops[0]);
      var (last, rcs) := BagRun(next, n, ops[1..]);
      (last, [rc] + rcs)
  }

  lemma {:induction false} StepRefinesBag(slots: seq<Service>, op: Op)
    requires Good(slots) && Fits(op.key)
    ensures var (next, rc) := Apply(slots, op);
            Good(next) && |next| == |slots| && (Copies(next), rc) == BagStep(Copies(slots), |slots|, op)
  {
    match op
    case Subscribe(key) =>
      AddedStep(slots, key);
      LiveKeys(slots);
    case Unsubscribe(key) => RemovedStep(slots, key);
  }

  /** Over every sequence of operations the slot table behaves as a multiset with room for as many
      different keys as there are slots, whatever holes the removals leave. */
  lemma {:induction false} TableRefinesBag(slots: seq<Service>, ops: seq<Op>)
    requires Good(slots) && forall i :: 0 <= i < |ops| ==> Fits(ops[i].key)
    ensures var (last, rcs) := Run(slots, ops);
            Good(last) && |last| == |slots| && (Copies(last), rcs) == BagRun(Copies(slots), |slots|, ops)
    decreases |ops|
  {
    if ops != [] {
      StepRefinesBag(slots, ops[0]);
      TableRefinesBag(Apply(slots, ops[0]).0, ops[1..]);
    }
  }

  function Change(op: Op, rc: int, key: Key): int {
    if rc != 0 || op.key != key then 0 else if op.Subscribe? then 1 else -1
  }

  /** Successful subscriptions to a key minus successful cancellations. */
  function Net(ops: seq<Op>, rcs: seq<int>, key: Key): int
    requires |ops| == |rcs|
    decreases |ops|
  {
    if ops == [] then 0 else Change(ops[0], rcs[0], key) + Net(ops[1..], rcs[1..], key)
  }

  lemma {:induction false} StepChanges(slots: seq<Service>, op: Op, key: Key)
    requires Good(slots) && Fits(op.key)
    ensures var (next, rc) := Apply(slots, op);
            Good(next) && Copies(next)[key] == Copies(slots)[key] + Change(op, rc, key)
  {
    StepRefinesBag(slots, op);
  }

  lemma {:induction false} NetChange(slots: seq<Service>, ops: seq<Op>, key: Key)
    requires Good(slots) && forall i :: 0 <= i < |ops| ==> Fits(ops[i].key)
    ensures var (last, rcs) := Run(slots, ops);
            |rcs| == |ops| && Copies(last)[key] == Copies(slots)[key] + Net(ops, rcs, key)
    decreases |ops|
  {
    if ops != [] {
      var (next, rc) := Apply(slots, ops[0]);
      StepChanges(slots, ops[0], key);
      NetChange(next, ops[1..], key);
      assert ([rc] + Run(next, ops[1..]).1)[1..] == Run(next, ops[1..]).1;
    }
  }

  /** A key has a slot exactly while it has been subscribed more often than cancelled, and the slot
      counts the difference. */
  lemma CountIsNet(slots: seq<Service>, ops: seq<Op>, key: Key)
    requires forall i :: 0 <= i < |slots| ==> !IsLive(slots[i])
    requires forall i :: 0 <= i < |ops| ==> Fits(ops[i].key)
    ensures var (last, rcs) := Run(slots, ops);
            && |rcs| == |ops|
            && CountOf(last, key) == Net(ops, rcs, key) >= 0
            && (SlotOf(last, key) < |last| <==> Net(ops, rcs, key) > 0)
  {
    NetChange(slots, ops, key);
    TableRefinesBag(slots, ops);
    CopiesOfKey(slots, key);
    CopiesOfKey(Run(slots, ops).0, key);
  }

  // ----- Names that do not fit -----

  lemma {:induction false} UnfitIsAbsent(slots: seq<Service>, key: Key)
    requires SlotsFit(slots) && !Fits(key)
    ensures SlotOf(slots, key) == |slots| && Copies(slots)[key] == 0
    decreases |slots|
  {
    if slots != [] {
      assert forall i :: 0 <= i < |slots[1..]| ==> slots[1..][i] == slots[i + 1];
      UnfitIsAbsent(slots[1..], key);
    }
  }

  lemma AddedFits(slots: seq<Service>, key: Key)
    requires SlotsFit(slots)
    ensures SlotsFit(Added(slots, key).0)
  {}

  /** Writing one slot, in any table: what one slot held goes, what it holds now comes. */
  lemma {:induction false} CopiesAfterWrite(slots: seq<Service>, i: nat, x: Service, key: Key)
    requires i < |slots|
    ensures Copies(slots[i := x])[key] + CopiesIn(slots[i])[key] == Copies(slots)[key] + CopiesIn(x)[key]
    decreases |slots|
  {
    if i == 0 {
      assert slots[0 := x][1..] == slots[1..];
    } else {
      assert slots[i := x][1..] == slots[1..][i - 1 := x];
      CopiesAfterWrite(slots[1..], i - 1, x, key);
    }
  }

  lemma {:induction false} FittingAdded(slots: seq<Service>, key: Key)
    requires SlotsFit(slots) && Added(slots, key).1 == 0 && Fits(key)
    ensures Copies(Added(slots, key).0)[key] == Copies(slots)[key] + 1
    ensures SlotOf(Added(slots, key).0, key) < |slots|
  {
    var next := Added(slots, key).0;
    var i := if SlotOf(slots, key) < |slots| then SlotOf(slots, key) else FirstHole(slots);
    CopiesAfterWrite(slots, i, next[i], key);
    assert IsLive(next[i]) && next[i].key == key;
  }

  /** A subscription for which there is room adds one copy of its key exactly when the names are not
      too long to be stored and the service has a name. */
  lemma {:induction false} AddCountsWhenItFits(slots: seq<Service>, key: Key)
    requires SlotsFit(slots) && Added(slots, key).1 == 0
    ensures Copies(Added(slots, key).0)[key] == Copies(slots)[key] + 1 <==> 0 < |key.servicio| <= 32 && |key.server| <= 32
  {
    if Fits(key) {
      FittingAdded(slots, key);
    } else {
      UnfitIsAbsent(slots, key);
      AddedFits(slots, key);
      UnfitIsAbsent(Added(slots, key).0, key);
    }
  }

  /** What was subscribed can be unsubscribed at once, exactly when the names fit. */
  lemma RemovableWhenItFits(slots: seq<Service>, key: Key)
    requires SlotsFit(slots) && Added(slots, key).1 == 0
    ensures Removed(Added(slots, key).0, key).1 == 0 <==> 0 < |key.servicio| <= 32 && |key.server| <= 32
  {
    if Fits(key) {
      FittingAdded(slots, key);
    } else {
      AddedFits(slots, key);
      UnfitIsAbsent(Added(slots, key).0, key);
    }
  }

  /** With a name of 33 characters two live slots can end up with the same key. */
  lemma LongNameTwice(x: Service)
    requires !IsLive(x)
    ensures exists key ::
              var once := Added([x, x], key).0;
              Added(once, key).1 == 0 && !DistinctKeys(Added(once, key).0)
  {
    var key := Key(Repeated('a', NAME_WIDTH + 1), 'M', "s");
    UnfitIsAbsent([x, x], key);
    var once := Added([x, x], key).0;
    assert FirstHole([x, x]) == 0;
    assert once == [Stored(key), x];
    UnfitIsAbsent(once, key);
    assert FirstHole(once) == 1 by {
      assert IsLive(once[0]) && !IsLive(once[1]);
    }
    var twice := Added(once, key).0;
    assert twice[0] == twice[1] == Stored(key) && IsLive(twice[0]);
  }
}
