/** Subscriptions: `Store.subscribe` and the disposable it returns. */
module Subscriptions {
  import opened Values
  import opened Identity
  import opened Atoms
  import opened State
  import opened Reading
  import opened Propagation

  /** The disposable handle: which atom, which subscriber. */
  datatype Subscription = Subscription(key: Key, id: SubId)

  /** `Store.subscribe(atom:subscriber:)`: reads the atom once so that every
      primitive atom it reaches records it as a dependent, then registers a
      fresh subscriber in its cell, creating the cell with no value if there
      is none. Nothing memorized and no atom's value changes. */
  function Subscribe(reg: Registry, s: Store, k: Key): (r: (Store, Subscription))
    requires Valid(reg, s) && k in reg
    ensures Valid(reg, r.0)
    ensures r.1.key == k && r.1.id !in AllSubs(s.cells)
    ensures r.1.id == s.nextSub && r.0.nextSub == s.nextSub + 1
    ensures k in r.0.cells && Subs(r.0.cells, k) == Subs(s.cells, k) + {r.1.id}
    ensures forall j :: j != k ==> Subs(r.0.cells, j) == Subs(s.cells, j)
    ensures forall p :: p in Leaves(reg, k) && p != k ==> p in r.0.cells && k in r.0.cells[p].dependents
    ensures forall j :: Memo(r.0.cells, j) == Memo(s.cells, j)
    ensures forall j :: j in reg ==> Val(reg, r.0.cells, j) == Val(reg, s.cells, j)
    ensures s.cells.Keys <= r.0.cells.Keys
    ensures forall j :: j in s.cells ==>
      && s.cells[j].dependents <= r.0.cells[j].dependents
      && (s.cells[j].value.Some? ==> r.0.cells[j].value == s.cells[j].value)
    ensures forall j :: j in r.0.cells && j !in s.cells && j != k ==> j in reg && reg[j].Primitive?
    ensures NewEdges(reg, s.cells, r.0.cells, [], Leaves(reg, k), Through(reg, k))
  {
    var (s1, _) := Read(reg, s, k);
    ReadAddsEdges(reg, s, k);
    NewEdgesSound(reg, s.cells, s1.cells, Leaves(reg, k), Through(reg, k));
    SoundNewKeeps(reg, s.cells, s1.cells);
    RegisterStep(reg, s, s1, k);
    RegisterKeeps(reg, s, s1, k);
    Register(s1, k)
  }

  /** Registering changes no dependents and no values, so what the read of
      `subscribe` did to them is what `subscribe` does. */
  lemma RegisterKeeps(reg: Registry, s: Store, s1: Store, k: Key)
    requires WellFormed(reg) && k in reg
    requires Extends(reg, s.cells, s1.cells)
    requires NewEdges(reg, s.cells, s1.cells, s.scope, Leaves(reg, k), Through(reg, k))
    ensures forall j :: j in s.cells ==>
      && s.cells[j].dependents <= Register(s1, k).0.cells[j].dependents
      && (s.cells[j].value.Some? ==> Register(s1, k).0.cells[j].value == s.cells[j].value)
    ensures forall j :: j in Register(s1, k).0.cells && j !in s.cells && j != k ==> j in reg && reg[j].Primitive?
    ensures NewEdges(reg, s.cells, Register(s1, k).0.cells, s.scope, Leaves(reg, k), Through(reg, k))
  {
    var c2 := Register(s1, k).0.cells;
    assert forall j :: j in s1.cells ==> c2[j].dependents == s1.cells[j].dependents && c2[j].value == s1.cells[j].value;
    forall p, d | p in c2 && d in c2[p].dependents && !(p in s.cells && d in s.cells[p].dependents)
      ensures EdgeWithin(reg, p, d, s.scope, Leaves(reg, k), Through(reg, k))
    {
      assert p in s1.cells && d in s1.cells[p].dependents;
    }
  }

  /** The registration half of `subscribe`: the next id joins the atom's
      cell, which is created without a value if missing. */
  function Register(s: Store, k: Key): (r: (Store, Subscription))
    ensures r.1 == Subscription(k, s.nextSub) && r.0.nextSub == s.nextSub + 1 && r.0.scope == s.scope
    ensures r.0.cells.Keys == s.cells.Keys + {k}
    ensures forall j :: j in s.cells && j != k ==> r.0.cells[j] == s.cells[j]
    ensures r.0.cells[k].subscribers == Subs(s.cells, k) + {s.nextSub}
    ensures k in s.cells ==> r.0.cells[k] == s.cells[k].(subscribers := r.0.cells[k].subscribers)
    ensures k !in s.cells ==> r.0.cells[k] == NewCell(None).(subscribers := {s.nextSub})
  {
    var c := if k in s.cells then s.cells[k] else NewCell(None);
    (s.(cells := s.cells[k := c.(subscribers := c.subscribers + {s.nextSub})], nextSub := s.nextSub + 1),
     Subscription(k, s.nextSub))
  }

  /** Registering after the read of `subscribe` gives what `subscribe`
      promises. */
  lemma RegisterStep(reg: Registry, s: Store, s1: Store, k: Key)
    requires Valid(reg, s) && k in reg
    requires s1.scope == s.scope && s1.nextSub == s.nextSub
    requires Extends(reg, s.cells, s1.cells) && EdgesOk(reg, s1.cells) && EdgesSound(reg, s1.cells)
    requires forall p :: p in Leaves(reg, k) ==> Tracked(s1.cells, p, s.scope + [k])
    ensures Valid(reg, Register(s1, k).0)
    ensures Register(s1, k).1.key == k && Register(s1, k).1.id !in AllSubs(s.cells)
    ensures k in Register(s1, k).0.cells && Subs(Register(s1, k).0.cells, k) == Subs(s.cells, k) + {Register(s1, k).1.id}
    ensures forall j :: j != k ==> Subs(Register(s1, k).0.cells, j) == Subs(s.cells, j)
    ensures forall p :: p in Leaves(reg, k) && p != k ==> p in Register(s1, k).0.cells && k in Register(s1, k).0.cells[p].dependents
    ensures forall j :: Memo(Register(s1, k).0.cells, j) == Memo(s.cells, j)
    ensures forall j :: j in reg ==> Val(reg, Register(s1, k).0.cells, j) == Val(reg, s.cells, j)
    ensures s.cells.Keys <= Register(s1, k).0.cells.Keys
  {
    var (s2, h) := Register(s1, k);
    var c2 := s2.cells[k];
    assert s2.cells == s1.cells[k := c2];
    SubscribeSubs(reg, s, s1, s2, k, c2, h.id);
    SubscribeTracks(reg, s1.cells, s2.cells, k, c2);
    SubscribeValues(reg, s.cells, s1.cells, s2.cells, k, c2);
    SubscribeEdges(reg, s1.cells, k, c2);
  }

  /** The subscriber side of `subscribe`: the id is fresh, it is added to the
      atom's cell only, and the counter moves past it. */
  lemma SubscribeSubs(reg: Registry, s: Store, s1: Store, s2: Store, k: Key, c: Cell, id: SubId)
    requires Grows(reg, s.cells, s1.cells) && SubsOk(s) && id == s.nextSub && s2.nextSub == id + 1
    requires c.subscribers == Subs(s1.cells, k) + {id} && s2.cells == s1.cells[k := c]
    ensures id !in AllSubs(s.cells)
    ensures Subs(s2.cells, k) == Subs(s.cells, k) + {id}
    ensures forall j :: j != k ==> Subs(s2.cells, j) == Subs(s.cells, j)
    ensures SubsOk(s2)
  {
    GrowsAllSubs(reg, s.cells, s1.cells);
    SubscribeFresh(s);
    assert forall j :: j != k ==> Subs(s2.cells, j) == Subs(s1.cells, j);
    SubsWithNew(s, s2, k, id);
  }

  /** The new cell keeps the dependents of the cell it replaces. */
  lemma SubscribeEdges(reg: Registry, cells: CellMap, k: Key, c: Cell)
    requires WellFormed(reg) && k in reg && EdgesOk(reg, cells)
    requires c.dependents == if k in cells then cells[k].dependents else {}
    ensures EdgesOk(reg, cells[k := c])
    ensures EdgesSound(reg, cells) ==> EdgesSound(reg, cells[k := c])
  {
    var cells2 := cells[k := c];
    assert forall j :: j in cells2 ==> cells2[j].dependents == {} || (j in cells && cells2[j].dependents == cells[j].dependents);
    EdgesKept(reg, cells, cells2);
    SoundNewNone(reg, cells, cells2);
    if EdgesSound(reg, cells) {
      SoundNewKeeps(reg, cells, cells2);
    }
  }

  /** The counter is above every id in use, so the id it hands out is fresh. */
  lemma SubscribeFresh(s: Store)
    requires SubsOk(s)
    ensures s.nextSub !in AllSubs(s.cells)
  {
  }

  /** Replacing a cell by one with the same dependents keeps every leaf's
      record of the subscribed atom. */
  lemma SubscribeTracks(reg: Registry, cells1: CellMap, cells2: CellMap, k: Key, c: Cell)
    requires WellFormed(reg) && k in reg
    requires forall p :: p in Leaves(reg, k) ==> Tracked(cells1, p, [] + [k])
    requires k in cells1 ==> c.dependents == cells1[k].dependents
    requires cells2 == cells1[k := c]
    ensures forall p :: p in Leaves(reg, k) && p != k ==> p in cells2 && k in cells2[p].dependents
  {
    forall p | p in Leaves(reg, k) && p != k
      ensures p in cells2 && k in cells2[p].dependents
    {
      assert [] + [k] == [k];
      assert Tracked(cells1, p, [k]);
      assert [k][0] == k;
    }
  }

  /** Replacing a cell by one with the same value and memorized value, or
      adding an empty one, changes no atom's value and no memorized value. */
  lemma SubscribeValues(reg: Registry, cells: CellMap, cells1: CellMap, cells2: CellMap, k: Key, c: Cell)
    requires WellFormed(reg) && k in reg
    requires Extends(reg, cells, cells1)
    requires k in cells1 ==> c.value == cells1[k].value && c.memorized == cells1[k].memorized
    requires k !in cells1 ==> c.value == None && c.memorized == None
    requires cells2 == cells1[k := c]
    ensures forall j :: Memo(cells2, j) == Memo(cells, j)
    ensures forall j :: j in reg ==> Val(reg, cells2, j) == Val(reg, cells, j)
  {
    assert SameValues(reg, cells1, cells2);
    ValuesAgree(reg, cells, cells1);
    ValuesAgree(reg, cells1, cells2);
  }

  /** Adding the fresh id to one cell and advancing the counter keeps the
      subscriber invariant. */
  lemma SubsWithNew(s: Store, s2: Store, k: Key, id: SubId)
    requires SubsOk(s) && id == s.nextSub && s2.nextSub == id + 1
    requires id !in AllSubs(s.cells)
    requires Subs(s2.cells, k) == Subs(s.cells, k) + {id}
    requires forall j :: j != k ==> Subs(s2.cells, j) == Subs(s.cells, j)
    ensures SubsOk(s2)
  {
    forall j1, j2, x | j1 in s2.cells && j2 in s2.cells && x in s2.cells[j1].subscribers && x in s2.cells[j2].subscribers
      ensures j1 == j2
    {
      assert x in Subs(s2.cells, j1) && x in Subs(s2.cells, j2);
      if x != id {
        assert x in Subs(s.cells, j1) && x in Subs(s.cells, j2);
      }
    }
    forall j, x | j in s2.cells && x in s2.cells[j].subscribers
      ensures x < s2.nextSub
    {
      assert x in Subs(s2.cells, j);
      if x != id {
        assert x in Subs(s.cells, j);
      }
    }
  }

  /** The disposable's `dispose()`: removes the subscriber from the atom's cell
      if there is one. Nothing else changes. */
  function Dispose(s: Store, h: Subscription): (r: Store)
    ensures forall j :: Subs(r.cells, j) == if j == h.key then Subs(s.cells, j) - {h.id} else Subs(s.cells, j)
    ensures r.cells.Keys == s.cells.Keys && r.scope == s.scope && r.nextSub == s.nextSub
    ensures forall j :: j in s.cells ==> r.cells[j] == s.cells[j].(subscribers := Subs(r.cells, j))
  {
    if h.key in s.cells then
      var c := s.cells[h.key];
      s.(cells := s.cells[h.key := c.(subscribers := c.subscribers - {h.id})])
    else s
  }

  lemma DisposeKeepsValid(reg: Registry, s: Store, h: Subscription)
    requires Valid(reg, s)
    ensures Valid(reg, Dispose(s, h))
  {
    var r := Dispose(s, h);
    assert forall j :: j in r.cells ==> j in s.cells && r.cells[j].dependents == s.cells[j].dependents;
    EdgesKept(reg, s.cells, r.cells);
    SoundNewNone(reg, s.cells, r.cells);
    SoundNewKeeps(reg, s.cells, r.cells);
    forall j1, j2, x | j1 in r.cells && j2 in r.cells && x in r.cells[j1].subscribers && x in r.cells[j2].subscribers
      ensures j1 == j2
    {
      assert x in Subs(r.cells, j1) && x in Subs(r.cells, j2);
      assert x in Subs(s.cells, j1) && x in Subs(s.cells, j2);
    }
    forall j, x | j in r.cells && x in r.cells[j].subscribers
      ensures x < r.nextSub
    {
      assert x in Subs(r.cells, j);
      assert x in Subs(s.cells, j);
    }
  }

  /** A disposed id is no longer registered anywhere, as ids belong to one
      cell only. */
  lemma DisposeRemoves(s: Store, h: Subscription)
    requires SubsDisjoint(s.cells) && h.id in Subs(s.cells, h.key)
    ensures forall j :: h.id !in Subs(Dispose(s, h).cells, j)
  {
    forall j ensures h.id !in Subs(Dispose(s, h).cells, j) {
      if j != h.key && h.id in Subs(s.cells, j) {
        SubsOwner(s.cells, j, h.key, h.id);
      }
    }
  }

  /** Disposing twice is the same as disposing once. */
  lemma DisposeIdempotent(s: Store, h: Subscription)
    ensures Dispose(Dispose(s, h), h) == Dispose(s, h)
  {
    var once := Dispose(s, h);
    var twice := Dispose(once, h);
    assert twice.cells.Keys == once.cells.Keys;
    forall j | j in once.cells ensures twice.cells[j] == once.cells[j] {
      assert Subs(twice.cells, j) == Subs(once.cells, j);
    }
  }

  /** Disposing a subscription undoes its registration: every cell has the
      subscribers it had before `subscribe`. */
  lemma DisposeUndoesSubscribe(reg: Registry, s: Store, k: Key)
    requires Valid(reg, s) && k in reg
    ensures forall j :: Subs(Dispose(Subscribe(reg, s, k).0, Subscribe(reg, s, k).1).cells, j) == Subs(s.cells, j)
  {
    var (s1, h) := Subscribe(reg, s, k);
  }

  /** Disposal: once a subscription is disposed, the next write does not
      notify it, and neither does any write of any later run of operations:
      its id is retired for good. */
  lemma DisposedNotNotified(reg: Registry, s: Store, h: Subscription, k: Key, v: Value, ops: seq<Op>)
    requires Valid(reg, s) && h.id in Subs(s.cells, h.key) && k in reg
    ensures Valid(reg, Dispose(s, h))
    ensures h.id !in Set(reg, Dispose(s, h), k, v).1
    ensures Retired(Dispose(s, h), h.id)
    ensures Applicable(reg, ops) ==> h.id !in Run(reg, Dispose(s, h), ops).1
  {
    var s1 := Dispose(s, h);
    DisposeKeepsValid(reg, s, h);
    DisposeRemoves(s, h);
    if Applicable(reg, ops) {
      RetiredNeverNotified(reg, s1, ops, h.id);
    }
    var (s2, n) := Set(reg, s1, k, v);
    if h.id in n {
      var j := ChangedOwner(s1.cells, s2.cells, h.id);
      assert false;
    }
  }

  /** The operations a program performs on the store: `get`, `set`,
      `subscribe` and `dispose()` of a subscription it holds. */
  datatype Op =
    | Get(key: Key)
    | Put(key: Key, value: Value)
    | Sub(key: Key)
    | Unsub(handle: Subscription)

  /** Every atom the operations name exists. */
  ghost predicate Applicable(reg: Registry, ops: seq<Op>) {
    forall i :: 0 <= i < |ops| ==> ops[i].Unsub? || ops[i].key in reg
  }

  /** One operation, with the subscriber ids it notifies. */
  function Step(reg: Registry, s: Store, op: Op): (r: (Store, multiset<SubId>))
    requires Valid(reg, s) && (op.Unsub? || op.key in reg)
    ensures Valid(reg, r.0)
    ensures !op.Put? ==> r.1 == multiset{}
  {
    match op
    case Get(k) =>
      ReadKeepsValid(reg, s, k);
      (Read(reg, s, k).0, multiset{})
    case Put(k, v) => Set(reg, s, k, v)
    case Sub(k) => (Subscribe(reg, s, k).0, multiset{})
    case Unsub(h) =>
      DisposeKeepsValid(reg, s, h);
      (Dispose(s, h), multiset{})
  }

  /** Performs `ops` in order, collecting every id the writes notify. */
  function Run(reg: Registry, s: Store, ops: seq<Op>): (r: (Store, multiset<SubId>))
    requires Valid(reg, s) && Applicable(reg, ops)
    ensures Valid(reg, r.0)
    decreases |ops|
  {
    if ops == [] then (s, multiset{})
    else
      var (s1, n1) := Step(reg, s, ops[0]);
      var (s2, n2) := Run(reg, s1, ops[1..]);
      (s2, n1 + n2)
  }

  /** `id` was handed out by the store and is registered on no atom: the id
      of a disposed subscription. */
  ghost predicate Retired(s: Store, id: SubId) {
    id < s.nextSub && forall j :: id !in Subs(s.cells, j)
  }

  /** No operation notifies a retired id or registers it again: `subscribe`
      always hands out the next, never used, id. */
  lemma StepKeepsRetired(reg: Registry, s: Store, op: Op, id: SubId)
    requires Valid(reg, s) && (op.Unsub? || op.key in reg) && Retired(s, id)
    ensures id !in Step(reg, s, op).1
    ensures Retired(Step(reg, s, op).0, id)
  {
    match op
    case Get(k) =>
      GrowsAllSubs(reg, s.cells, Read(reg, s, k).0.cells);
    case Put(k, v) =>
      SetKeepsRetired(reg, s, k, v, id);
    case Sub(k) =>
    case Unsub(h) =>
  }

  /** A write neither notifies a retired id nor registers it. */
  lemma SetKeepsRetired(reg: Registry, s: Store, k: Key, v: Value, id: SubId)
    requires Valid(reg, s) && k in reg && Retired(s, id)
    ensures id !in Set(reg, s, k, v).1
    ensures Retired(Set(reg, s, k, v).0, id)
  {
    var (s1, n) := Set(reg, s, k, v);
    SetKeepsNextSub(reg, s, k, v);
    if id in n {
      var j := ChangedOwner(s.cells, s1.cells, id);
      assert false;
    }
  }

  /** A retired id stays retired, and unnotified, through any run of
      operations. */
  lemma {:induction false} RetiredNeverNotified(reg: Registry, s: Store, ops: seq<Op>, id: SubId)
    requires Valid(reg, s) && Applicable(reg, ops) && Retired(s, id)
    ensures id !in Run(reg, s, ops).1
    ensures Retired(Run(reg, s, ops).0, id)
    decreases |ops|
  {
    if ops != [] {
      StepKeepsRetired(reg, s, ops[0], id);
      var s1 := Step(reg, s, ops[0]).0;
      RetiredNeverNotified(reg, s1, ops[1..], id);
    }
  }
}
