/** Writing an atom and propagating the change: `Store.set` and
    `Store.triggerUpdate`. A propagation returns the new store and the
    multiset of subscriber ids it notified. */
module Propagation {
  import opened Values
  import opened Identity
  import opened Atoms
  import opened State
  import opened Reading

  /** Dependents are visited in ascending key order. The source iterates a
      hash set, whose order is unspecified; the model fixes one order. */
  function Least(ds: set<Key>): (m: Key)
    requires ds != {}
    ensures m in ds && forall e :: e in ds ==> m <= e
  {
    LeastExists(ds);
    var m :| m in ds && forall e :: e in ds ==> m <= e;
    m
  }

  lemma LeastExists(ds: set<Key>)
    requires ds != {}
    ensures exists m :: m in ds && forall e :: e in ds ==> m <= e
  {
    var x :| x in ds;
    LeastBelow(ds, x);
  }

  /** Descending from any member reaches the least one. */
  lemma {:induction false} LeastBelow(ds: set<Key>, x: Key)
    requires x in ds
    ensures exists m :: m in ds && forall e :: e in ds ==> m <= e
    decreases x
  {
    if !(forall e :: e in ds ==> x <= e) {
      var y :| y in ds && y < x;
      LeastBelow(ds, y);
    }
  }

  /** The registered keys at or above `k`: the termination measure of
      propagation, which only ever moves to larger keys. */
  ghost function Up(reg: Registry, k: Key): set<Key> {
    set j | j in reg && k <= j
  }

  lemma UpShrinks(reg: Registry, k: Key, d: Key)
    requires k in reg && k < d
    ensures Up(reg, d) < Up(reg, k)
  {
    assert k in Up(reg, k) && k !in Up(reg, d);
  }

  /** What a propagation from store `s` to store `r` may change: scope and
      subscriber counter stay, cells only grow, edges stay well formed. */
  ghost predicate Propagates(reg: Registry, s: Store, r: Store) {
    && r.scope == s.scope && r.nextSub == s.nextSub
    && Grows(reg, s.cells, r.cells)
    && EdgesOk(reg, r.cells)
  }

  /** `n` notifies the subscribers of exactly the cells whose memorized value
      changed from `c1` to `c2`, each of them once. */
  ghost predicate Notifies(c1: CellMap, c2: CellMap, n: multiset<SubId>) {
    && (forall k, id :: id in Subs(c1, k) && Memo(c2, k) != Memo(c1, k) ==> id in n)
    && (forall id :: id in n ==> id in ChangedSubs(c1, c2))
    && (forall id :: n[id] <= 1)
  }

  /** The preconditions shared by propagation: an empty read scope (propagation
      runs from a top-level `set`) and well-formed edges. */
  ghost predicate Ready(reg: Registry, s: Store) {
    WellFormed(reg) && EdgesOk(reg, s.cells) && SubsDisjoint(s.cells) && s.scope == []
  }

  /** `triggerUpdate(for:newValue:)`. No cell: nothing happens. A memorized
      value equal to `v`: nothing happens. Otherwise `v` is memorized, the
      cell's subscribers are notified, and every dependent is re-evaluated and
      propagated in turn. */
  function Trigger(reg: Registry, s: Store, k: Key, v: Value): (r: (Store, multiset<SubId>))
    requires Ready(reg, s) && k in reg
    ensures k !in s.cells ==> r == (s, multiset{})
    ensures k in s.cells && s.cells[k].memorized == Some(v) ==> r == (s, multiset{})
    ensures k in s.cells ==> Memo(r.0.cells, k) == Some(v)
    ensures Propagates(reg, s, r.0) && Notifies(s.cells, r.0.cells, r.1)
    ensures forall j :: Memo(r.0.cells, j) != Memo(s.cells, j) && j != k ==>
      k < j && Memo(r.0.cells, j) == Some(Val(reg, s.cells, j))
    ensures k in s.cells && s.cells[k].memorized != Some(v) ==>
      forall d :: d in s.cells[k].dependents && d in r.0.cells ==>
        Memo(r.0.cells, d) == Some(Val(reg, s.cells, d))
    decreases Up(reg, k), 1
  {
    if k !in s.cells then (s, multiset{})
    else
      var c := s.cells[k];
      if c.memorized.Some? && c.memorized.value == v then (s, multiset{})
      else
        var s1 := s.(cells := s.cells[k := c.(memorized := Some(v))]);
        MemorizeReady(reg, s, k, v);
        var (s2, n) := Cascade(reg, s1, c.dependents, k);
        TriggerStep(reg, s, s1, s2, k, v, n);
        (s2, multiset(c.subscribers) + n)
  }

  /** The loop over dependents in `triggerUpdate`: each dependent's getter is
      run against the store and its value propagated from that dependent. */
  function Cascade(reg: Registry, s: Store, ds: set<Key>, k: Key): (r: (Store, multiset<SubId>))
    requires Ready(reg, s) && k in reg
    requires forall d :: d in ds ==> d in reg && k < d && reg[d].Derived?
    ensures Propagates(reg, s, r.0) && Notifies(s.cells, r.0.cells, r.1)
    ensures forall j :: Memo(r.0.cells, j) != Memo(s.cells, j) ==>
      k < j && Memo(r.0.cells, j) == Some(Val(reg, s.cells, j))
    ensures forall d :: d in ds && d in r.0.cells ==> Memo(r.0.cells, d) == Some(Val(reg, s.cells, d))
    decreases Up(reg, k), 0, ds
  {
    if ds == {} then (s, multiset{})
    else
      var d := Least(ds);
      var (s1, v) := Eval(reg, s, d);
      GrowsDisjoint(reg, s.cells, s1.cells);
      UpShrinks(reg, k, d);
      var (s2, n1) := Trigger(reg, s1, d, v);
      GrowsDisjoint(reg, s1.cells, s2.cells);
      var (s3, n2) := Cascade(reg, s2, ds - {d}, k);
      CascadeStep(reg, s, s1, s2, s3, n1, n2, ds, d, k, v);
      (s3, n1 + n2)
  }

  /** Memorizing a value keeps the store ready for propagation, and the
      cell's dependents are derived atoms above it. */
  lemma MemorizeReady(reg: Registry, s: Store, k: Key, v: Value)
    requires Ready(reg, s) && k in reg && k in s.cells
    ensures Ready(reg, s.(cells := s.cells[k := s.cells[k].(memorized := Some(v))]))
    ensures Grows(reg, s.cells, s.cells[k := s.cells[k].(memorized := Some(v))])
    ensures forall d :: d in s.cells[k].dependents ==> d in reg && k < d && reg[d].Derived?
  {
    var cells := s.cells[k := s.cells[k].(memorized := Some(v))];
    MemorizeCells(s.cells, k, v);
    EdgesKept(reg, s.cells, cells);
    MemoOnlyGrows(reg, s.cells, cells);
    GrowsDisjoint(reg, s.cells, cells);
    DependentsAbove(reg, s.cells, k);
  }

  /** Memorizing touches only the memorized value of one cell. */
  lemma MemorizeCells(cells: CellMap, k: Key, v: Value)
    requires k in cells
    ensures var c2 := cells[k := cells[k].(memorized := Some(v))];
      && c2.Keys == cells.Keys
      && forall j :: j in c2 ==>
        && c2[j].dependents == cells[j].dependents
        && c2[j].subscribers == cells[j].subscribers
        && c2[j].value == cells[j].value
  {
  }

  /** Changing memorized values only is a way of growing. */
  lemma MemoOnlyGrows(reg: Registry, c1: CellMap, c2: CellMap)
    requires c2.Keys == c1.Keys
    requires forall j :: j in c2 ==>
      && c2[j].dependents == c1[j].dependents
      && c2[j].subscribers == c1[j].subscribers
      && c2[j].value == c1[j].value
    ensures Grows(reg, c1, c2)
  {
  }

  /** The dependents of a cell are derived atoms above it. */
  lemma DependentsAbove(reg: Registry, cells: CellMap, k: Key)
    requires EdgesOk(reg, cells) && k in cells
    ensures forall d :: d in cells[k].dependents ==> d in reg && k < d && reg[d].Derived?
  {
  }

  /** `triggerUpdate` changes memorized values only at `k` and at the
      dependents `k` had: it memorizes `v` at `k` and then visits exactly
      those dependents. */
  lemma {:induction false} TriggerConfined(reg: Registry, s: Store, k: Key, v: Value)
    requires Ready(reg, s) && k in reg
    ensures forall j :: Memo(Trigger(reg, s, k, v).0.cells, j) != Memo(s.cells, j) ==>
      j == k || (k in s.cells && j in s.cells[k].dependents)
    decreases Up(reg, k), 2
  {
    if k in s.cells && s.cells[k].memorized != Some(v) {
      var s1 := s.(cells := s.cells[k := s.cells[k].(memorized := Some(v))]);
      MemorizeReady(reg, s, k, v);
      FireConfined(reg, s, s1, k, v);
    }
  }

  /** The firing branch of `triggerUpdate`: memorizing changes `k`, the
      cascade changes only `k`'s dependents. */
  lemma {:induction false} FireConfined(reg: Registry, s: Store, s1: Store, k: Key, v: Value)
    requires k in reg && k in s.cells && s1 == s.(cells := s.cells[k := s.cells[k].(memorized := Some(v))])
    requires Ready(reg, s1) && forall d :: d in s.cells[k].dependents ==> d in reg && k < d && reg[d].Derived?
    ensures forall j :: Memo(Cascade(reg, s1, s.cells[k].dependents, k).0.cells, j) != Memo(s.cells, j) ==>
      j == k || j in s.cells[k].dependents
    decreases Up(reg, k), 1
  {
    CascadeConfined(reg, s1, s.cells[k].dependents, k);
    ChangesWithin(s.cells, s1.cells, Cascade(reg, s1, s.cells[k].dependents, k).0.cells, k, s.cells[k].dependents);
  }

  /** The loop over `ds` changes memorized values only at members of `ds`:
      each is derived and so has no dependents of its own. */
  lemma {:induction false} CascadeConfined(reg: Registry, s: Store, ds: set<Key>, k: Key)
    requires Ready(reg, s) && k in reg
    requires forall d :: d in ds ==> d in reg && k < d && reg[d].Derived?
    ensures forall j :: Memo(Cascade(reg, s, ds, k).0.cells, j) != Memo(s.cells, j) ==> j in ds
    decreases Up(reg, k), 0, ds
  {
    if ds != {} {
      var d := Least(ds);
      var (s1, v) := Eval(reg, s, d);
      GrowsDisjoint(reg, s.cells, s1.cells);
      UpShrinks(reg, k, d);
      TriggerConfined(reg, s1, d, v);
      var s2 := Trigger(reg, s1, d, v).0;
      GrowsDisjoint(reg, s1.cells, s2.cells);
      CascadeConfined(reg, s2, ds - {d}, k);
      var s3 := Cascade(reg, s2, ds - {d}, k).0;
      assert Cascade(reg, s, ds, k).0 == s3;
      CascadeWithin(reg, s.cells, s1.cells, s2.cells, s3.cells, ds, d);
    }
  }

  /** Every dependency record `triggerUpdate` adds is sound: it comes from
      re-running a dependent's getter at an empty scope, which records an
      atom only at the primitive atoms its reads reach. */
  lemma {:induction false} TriggerAddsEdges(reg: Registry, s: Store, k: Key, v: Value)
    requires Ready(reg, s) && k in reg
    ensures SoundNew(reg, s.cells, Trigger(reg, s, k, v).0.cells)
    decreases Up(reg, k), 2
  {
    if k in s.cells && s.cells[k].memorized != Some(v) {
      var s1 := s.(cells := s.cells[k := s.cells[k].(memorized := Some(v))]);
      MemorizeReady(reg, s, k, v);
      FireAddsEdges(reg, s, s1, k, v);
    }
  }

  /** The firing branch: memorizing adds no record, the cascade only sound ones. */
  lemma {:induction false} FireAddsEdges(reg: Registry, s: Store, s1: Store, k: Key, v: Value)
    requires k in reg && k in s.cells && s1 == s.(cells := s.cells[k := s.cells[k].(memorized := Some(v))])
    requires Ready(reg, s1) && forall d :: d in s.cells[k].dependents ==> d in reg && k < d && reg[d].Derived?
    ensures SoundNew(reg, s.cells, Cascade(reg, s1, s.cells[k].dependents, k).0.cells)
    decreases Up(reg, k), 1
  {
    CascadeAddsEdges(reg, s1, s.cells[k].dependents, k);
    assert forall j :: j in s1.cells ==> j in s.cells && s1.cells[j].dependents == s.cells[j].dependents;
    SoundNewNone(reg, s.cells, s1.cells);
    SoundNewJoin(reg, s.cells, s1.cells, Cascade(reg, s1, s.cells[k].dependents, k).0.cells);
  }

  /** The loop over `ds` adds only sound records: each getter runs at an
      empty scope, and so does each propagation after it. */
  lemma {:induction false} CascadeAddsEdges(reg: Registry, s: Store, ds: set<Key>, k: Key)
    requires Ready(reg, s) && k in reg
    requires forall d :: d in ds ==> d in reg && k < d && reg[d].Derived?
    ensures SoundNew(reg, s.cells, Cascade(reg, s, ds, k).0.cells)
    decreases Up(reg, k), 0, ds
  {
    if ds != {} {
      var d := Least(ds);
      var (s1, v) := Eval(reg, s, d);
      EvalAddsEdges(reg, s, d);
      NewEdgesSound(reg, s.cells, s1.cells, Leaves(reg, d), Through(reg, d));
      GrowsDisjoint(reg, s.cells, s1.cells);
      UpShrinks(reg, k, d);
      TriggerAddsEdges(reg, s1, d, v);
      var s2 := Trigger(reg, s1, d, v).0;
      GrowsDisjoint(reg, s1.cells, s2.cells);
      CascadeAddsEdges(reg, s2, ds - {d}, k);
      var s3 := Cascade(reg, s2, ds - {d}, k).0;
      assert Cascade(reg, s, ds, k).0 == s3;
      SoundNewJoin(reg, s.cells, s1.cells, s2.cells);
      SoundNewJoin(reg, s.cells, s2.cells, s3.cells);
    }
  }

  /** Memorizing at `k` and then changing only memorized values in `ds`
      changes nothing outside `k` and `ds`. */
  lemma ChangesWithin(c: CellMap, c1: CellMap, c2: CellMap, k: Key, ds: set<Key>)
    requires forall j :: j != k ==> Memo(c1, j) == Memo(c, j)
    requires forall j :: Memo(c2, j) != Memo(c1, j) ==> j in ds
    ensures forall j :: Memo(c2, j) != Memo(c, j) ==> j == k || j in ds
  {
  }

  /** A dependent is derived, so it has no dependents of its own and its
      propagation changes no memorized value but its own: the loop over `ds`
      changes memorized values in `ds` only. */
  lemma CascadeWithin(reg: Registry, c: CellMap, c1: CellMap, c2: CellMap, c3: CellMap, ds: set<Key>, d: Key)
    requires EdgesOk(reg, c1) && d in ds && d in reg && reg[d].Derived?
    requires forall j :: Memo(c1, j) == Memo(c, j)
    requires forall j :: Memo(c2, j) != Memo(c1, j) ==> j == d || (d in c1 && j in c1[d].dependents)
    requires forall j :: Memo(c3, j) != Memo(c2, j) ==> j in ds - {d}
    ensures forall j :: Memo(c3, j) != Memo(c, j) ==> j in ds
  {
    if d in c1 {
      assert c1[d].dependents == {};
    }
  }

  /** Combines memorizing `v` at `k` with the cascade over `k`'s dependents. */
  lemma TriggerStep(reg: Registry, s: Store, s1: Store, s2: Store, k: Key, v: Value, n: multiset<SubId>)
    requires Ready(reg, s) && k in reg && k in s.cells && s.cells[k].memorized != Some(v)
    requires s1 == s.(cells := s.cells[k := s.cells[k].(memorized := Some(v))])
    requires Propagates(reg, s1, s2) && Notifies(s1.cells, s2.cells, n)
    requires forall j :: Memo(s2.cells, j) != Memo(s1.cells, j) ==>
      k < j && Memo(s2.cells, j) == Some(Val(reg, s1.cells, j))
    requires forall d :: d in s.cells[k].dependents && d in s2.cells ==>
      Memo(s2.cells, d) == Some(Val(reg, s1.cells, d))
    ensures Memo(s2.cells, k) == Some(v)
    ensures Propagates(reg, s, s2)
    ensures Notifies(s.cells, s2.cells, multiset(s.cells[k].subscribers) + n)
    ensures forall j :: Memo(s2.cells, j) != Memo(s.cells, j) && j != k ==>
      k < j && Memo(s2.cells, j) == Some(Val(reg, s.cells, j))
    ensures forall d :: d in s.cells[k].dependents && d in s2.cells ==>
      Memo(s2.cells, d) == Some(Val(reg, s.cells, d))
  {
    MemorizeReady(reg, s, k, v);
    GrowsTrans(reg, s.cells, s1.cells, s2.cells);
    GrowsAllSubs(reg, s1.cells, s2.cells);
    NotifiesRoot(s.cells, s1.cells, s2.cells, k, v, n);
    MemorizedVals(reg, s.cells, s1.cells, s2.cells, k, v);
  }

  /** Memorizing at `k` changes no atom's value, so what the cascade memorizes
      against the memorized state it also memorizes against the state before. */
  lemma MemorizedVals(reg: Registry, c: CellMap, c1: CellMap, c2: CellMap, k: Key, v: Value)
    requires WellFormed(reg) && k in c && c1 == c[k := c[k].(memorized := Some(v))]
    requires c.Keys <= c2.Keys <= reg.Keys
    requires forall j :: Memo(c2, j) != Memo(c1, j) ==>
      k < j && Memo(c2, j) == Some(Val(reg, c1, j))
    requires forall d :: d in c[k].dependents && d in c2 ==> Memo(c2, d) == Some(Val(reg, c1, d))
    ensures forall j :: Memo(c2, j) != Memo(c, j) && j != k ==>
      k < j && Memo(c2, j) == Some(Val(reg, c, j))
    ensures forall d :: d in c[k].dependents && d in c2 ==>
      Memo(c2, d) == Some(Val(reg, c, d))
  {
    MemorizeCells(c, k, v);
    assert SameValues(reg, c, c1);
    ValuesAgree(reg, c, c1);
    forall j | Memo(c2, j) != Memo(c, j) && j != k
      ensures k < j && Memo(c2, j) == Some(Val(reg, c, j))
    {
      assert Memo(c1, j) == Memo(c, j);
    }
  }

  /** The notifications of a change at `k`: its own subscribers, then those of
      the cascade, which only touches larger keys. */
  lemma NotifiesRoot(c: CellMap, c1: CellMap, c2: CellMap, k: Key, v: Value, n: multiset<SubId>)
    requires SubsDisjoint(c) && k in c && c[k].memorized != Some(v)
    requires c1 == c[k := c[k].(memorized := Some(v))]
    requires forall j :: Subs(c2, j) == Subs(c1, j)
    requires forall j :: Memo(c2, j) != Memo(c1, j) ==> k < j
    requires Notifies(c1, c2, n)
    ensures Memo(c2, k) == Some(v)
    ensures Notifies(c, c2, multiset(c[k].subscribers) + n)
  {
    assert Memo(c2, k) == Memo(c1, k);
    assert forall j :: j != k ==> Memo(c1, j) == Memo(c, j) && Subs(c1, j) == Subs(c, j);
    var all := multiset(c[k].subscribers) + n;
    forall j, id | id in Subs(c, j) && Memo(c2, j) != Memo(c, j)
      ensures id in all
    {
      if j != k {
        assert id in Subs(c1, j);
      }
    }
    forall id | id in all
      ensures id in ChangedSubs(c, c2)
    {
      if id in c[k].subscribers {
        assert Memo(c2, k) != Memo(c, k);
      } else {
        var j := ChangedOwner(c1, c2, id);
        assert j != k;
        InChangedSubs(c, c2, j, id);
      }
    }
    forall id
      ensures all[id] <= 1
    {
    }
  }

  /** Combines the first dependent's re-evaluation and propagation with the
      rest of the loop. */
  lemma CascadeStep(reg: Registry, s: Store, s1: Store, s2: Store, s3: Store,
                    n1: multiset<SubId>, n2: multiset<SubId>, ds: set<Key>, d: Key, k: Key, v: Value)
    requires Ready(reg, s) && k in reg && d in ds
    requires forall e :: e in ds ==> e in reg && k < e && reg[e].Derived?
    requires s1.scope == s.scope && s1.nextSub == s.nextSub
    requires Extends(reg, s.cells, s1.cells) && EdgesOk(reg, s1.cells)
    requires v == Val(reg, s.cells, d)
    // what propagating from d did
    requires Propagates(reg, s1, s2) && Notifies(s1.cells, s2.cells, n1)
    requires d in s1.cells ==> Memo(s2.cells, d) == Some(v)
    requires d !in s1.cells ==> s2 == s1
    requires forall j :: Memo(s2.cells, j) != Memo(s1.cells, j) && j != d ==>
      d < j && Memo(s2.cells, j) == Some(Val(reg, s1.cells, j))
    // what the rest of the loop did
    requires Propagates(reg, s2, s3) && Notifies(s2.cells, s3.cells, n2)
    requires forall j :: Memo(s3.cells, j) != Memo(s2.cells, j) ==>
      k < j && Memo(s3.cells, j) == Some(Val(reg, s2.cells, j))
    requires forall e :: e in ds - {d} && e in s3.cells ==> Memo(s3.cells, e) == Some(Val(reg, s2.cells, e))
    ensures Propagates(reg, s, s3) && Notifies(s.cells, s3.cells, n1 + n2)
    ensures forall j :: Memo(s3.cells, j) != Memo(s.cells, j) ==>
      k < j && Memo(s3.cells, j) == Some(Val(reg, s.cells, j))
    ensures forall e :: e in ds && e in s3.cells ==> Memo(s3.cells, e) == Some(Val(reg, s.cells, e))
  {
    GrowsTrans(reg, s.cells, s1.cells, s2.cells);
    GrowsTrans(reg, s.cells, s2.cells, s3.cells);
    GrowsAllSubs(reg, s.cells, s1.cells);
    GrowsAllSubs(reg, s1.cells, s2.cells);
    GrowsAllSubs(reg, s2.cells, s3.cells);
    GrowsTrans(reg, s1.cells, s2.cells, s3.cells);
    CascadeVals(reg, s.cells, s1.cells, s2.cells, s3.cells, d, k);
    CascadeMemo(reg, s.cells, s1.cells, s2.cells, s3.cells, ds, d, k);
    NotifiesCompose(reg, s.cells, s1.cells, s2.cells, s3.cells, n1, n2);
  }

  /** The values memorized by both halves of a loop step are values in the
      store before the step, as neither half changes a primitive atom. */
  lemma CascadeVals(reg: Registry, c: CellMap, c1: CellMap, c2: CellMap, c3: CellMap, d: Key, k: Key)
    requires WellFormed(reg) && k < d && c2.Keys <= reg.Keys && c3.Keys <= reg.Keys
    requires Extends(reg, c, c1) && Grows(reg, c1, c2)
    requires forall j :: Memo(c2, j) != Memo(c1, j) && j != d ==>
      d < j && Memo(c2, j) == Some(Val(reg, c1, j))
    requires d in c1 ==> d in reg && Memo(c2, d) == Some(Val(reg, c, d))
    requires d !in c1 ==> c2 == c1
    requires forall j :: Memo(c3, j) != Memo(c2, j) ==>
      k < j && Memo(c3, j) == Some(Val(reg, c2, j))
    ensures forall j :: Memo(c2, j) != Memo(c1, j) ==>
      k < j && j in reg && Memo(c2, j) == Some(Val(reg, c, j))
    ensures forall j :: Memo(c3, j) != Memo(c2, j) ==>
      k < j && j in reg && Memo(c3, j) == Some(Val(reg, c, j))
    ensures forall j :: j in reg ==> Val(reg, c2, j) == Val(reg, c, j)
  {
    GrowsTrans(reg, c, c1, c2);
    ValuesAgree(reg, c, c1);
    ValuesAgree(reg, c, c2);
    VisitedAgainst(reg, c, c1, c2, d, k);
    ChangedAgainst(reg, c, c2, c3, k);
  }

  /** The memorized values one visit of the cascade changes are values
      against the state the cascade started from. */
  lemma VisitedAgainst(reg: Registry, c: CellMap, c1: CellMap, c2: CellMap, d: Key, k: Key)
    requires WellFormed(reg) && k < d && c1.Keys <= c2.Keys <= reg.Keys
    requires forall j :: j in reg ==> Val(reg, c1, j) == Val(reg, c, j)
    requires forall j :: Memo(c2, j) != Memo(c1, j) && j != d ==>
      d < j && Memo(c2, j) == Some(Val(reg, c1, j))
    requires d in c1 ==> d in reg && Memo(c2, d) == Some(Val(reg, c, d))
    requires d !in c1 ==> c2 == c1
    ensures forall j :: Memo(c2, j) != Memo(c1, j) ==>
      k < j && j in reg && Memo(c2, j) == Some(Val(reg, c, j))
  {
    forall j | Memo(c2, j) != Memo(c1, j)
      ensures k < j && j in reg && Memo(c2, j) == Some(Val(reg, c, j))
    {
      assert j in c2;
    }
  }

  /** Memorized values set against one state are set against any state in
      which every atom has the same value. */
  lemma ChangedAgainst(reg: Registry, c: CellMap, c1: CellMap, c2: CellMap, k: Key)
    requires WellFormed(reg) && c1.Keys <= reg.Keys && c2.Keys <= reg.Keys
    requires forall j :: j in reg ==> Val(reg, c1, j) == Val(reg, c, j)
    requires forall j :: Memo(c2, j) != Memo(c1, j) ==>
      k < j && Memo(c2, j) == Some(Val(reg, c1, j))
    ensures forall j :: Memo(c2, j) != Memo(c1, j) ==>
      k < j && j in reg && Memo(c2, j) == Some(Val(reg, c, j))
  {
    forall j | Memo(c2, j) != Memo(c1, j)
      ensures k < j && j in reg && Memo(c2, j) == Some(Val(reg, c, j))
    {
      assert j in c1 || j in c2;
    }
  }

  /** The memorized values after the first dependent and the rest of the loop. */
  lemma CascadeMemo(reg: Registry, c: CellMap, c1: CellMap, c2: CellMap, c3: CellMap, ds: set<Key>, d: Key, k: Key)
    requires WellFormed(reg) && d in ds && d in reg && reg[d].Derived?
    requires forall j :: Memo(c1, j) == Memo(c, j)
    requires forall j :: j in c3 && j !in c1 ==> j in reg && reg[j].Primitive?
    requires c1.Keys <= c2.Keys <= c3.Keys
    requires d in c1 ==> Memo(c2, d) == Some(Val(reg, c, d))
    requires forall j :: Memo(c2, j) != Memo(c1, j) ==> k < j && j in reg && Memo(c2, j) == Some(Val(reg, c, j))
    requires forall j :: Memo(c3, j) != Memo(c2, j) ==> k < j && j in reg && Memo(c3, j) == Some(Val(reg, c, j))
    requires forall e :: e in ds - {d} && e in c3 ==> e in reg && Memo(c3, e) == Some(Val(reg, c, e))
    ensures forall j :: Memo(c3, j) != Memo(c, j) ==> k < j && j in reg && Memo(c3, j) == Some(Val(reg, c, j))
    ensures forall e :: e in ds && e in c3 ==> e in reg && Memo(c3, e) == Some(Val(reg, c, e))
  {
    forall j | Memo(c3, j) != Memo(c, j)
      ensures k < j && j in reg && Memo(c3, j) == Some(Val(reg, c, j))
    {
      if Memo(c3, j) == Memo(c2, j) {
        assert Memo(c2, j) != Memo(c1, j);
      }
    }
    if d in c3 {
      assert d in c1;
    }
  }

  /** Notifications of two propagations in a row, where the second only ever
      memorizes the values the first already memorizes. */
  lemma NotifiesCompose(reg: Registry, c: CellMap, c1: CellMap, c2: CellMap, c3: CellMap,
                        n1: multiset<SubId>, n2: multiset<SubId>)
    requires WellFormed(reg) && SubsDisjoint(c)
    requires forall j :: Memo(c1, j) == Memo(c, j)
    requires forall j :: Subs(c1, j) == Subs(c, j) && Subs(c2, j) == Subs(c, j) && Subs(c3, j) == Subs(c, j)
    requires forall j :: Memo(c2, j) != Memo(c1, j) ==> j in reg && Memo(c2, j) == Some(Val(reg, c, j))
    requires forall j :: Memo(c3, j) != Memo(c2, j) ==> j in reg && Memo(c3, j) == Some(Val(reg, c, j))
    requires Notifies(c1, c2, n1) && Notifies(c2, c3, n2)
    ensures Notifies(c, c3, n1 + n2)
  {
    NotifiesComposeAll(reg, c, c1, c2, c3, n1, n2);
    NotifiesComposeOnly(reg, c, c1, c2, c3, n1, n2);
    NotifiesComposeOnce(reg, c, c1, c2, c3, n1, n2);
  }

  lemma NotifiesComposeAll(reg: Registry, c: CellMap, c1: CellMap, c2: CellMap, c3: CellMap,
                           n1: multiset<SubId>, n2: multiset<SubId>)
    requires WellFormed(reg) && SubsDisjoint(c)
    requires forall j :: Memo(c1, j) == Memo(c, j)
    requires forall j :: Subs(c1, j) == Subs(c, j) && Subs(c2, j) == Subs(c, j) && Subs(c3, j) == Subs(c, j)
    requires forall j :: Memo(c2, j) != Memo(c1, j) ==> j in reg && Memo(c2, j) == Some(Val(reg, c, j))
    requires forall j :: Memo(c3, j) != Memo(c2, j) ==> j in reg && Memo(c3, j) == Some(Val(reg, c, j))
    requires Notifies(c1, c2, n1) && Notifies(c2, c3, n2)
    ensures forall j, id :: id in Subs(c, j) && Memo(c3, j) != Memo(c, j) ==> id in n1 + n2
  {
    forall j, id | id in Subs(c, j) && Memo(c3, j) != Memo(c, j)
      ensures id in n1 + n2
    {
      assert id in Subs(c1, j) && id in Subs(c2, j);
      if Memo(c3, j) == Memo(c2, j) {
        assert id in n1;
      } else {
        assert id in n2;
      }
    }
  }

  lemma NotifiesComposeOnly(reg: Registry, c: CellMap, c1: CellMap, c2: CellMap, c3: CellMap,
                            n1: multiset<SubId>, n2: multiset<SubId>)
    requires WellFormed(reg) && SubsDisjoint(c)
    requires forall j :: Memo(c1, j) == Memo(c, j)
    requires forall j :: Subs(c1, j) == Subs(c, j) && Subs(c2, j) == Subs(c, j) && Subs(c3, j) == Subs(c, j)
    requires forall j :: Memo(c2, j) != Memo(c1, j) ==> j in reg && Memo(c2, j) == Some(Val(reg, c, j))
    requires forall j :: Memo(c3, j) != Memo(c2, j) ==> j in reg && Memo(c3, j) == Some(Val(reg, c, j))
    requires Notifies(c1, c2, n1) && Notifies(c2, c3, n2)
    ensures forall id :: id in n1 + n2 ==> id in ChangedSubs(c, c3)
  {
    forall id | id in n1 + n2
      ensures id in ChangedSubs(c, c3)
    {
      if id in n1 {
        var j := ChangedOwner(c1, c2, id);
        assert Memo(c3, j) == Memo(c2, j);
        InChangedSubs(c, c3, j, id);
      } else {
        var j := ChangedOwner(c2, c3, id);
        assert Memo(c, j) != Memo(c3, j);
        InChangedSubs(c, c3, j, id);
      }
    }
  }

  lemma NotifiesComposeOnce(reg: Registry, c: CellMap, c1: CellMap, c2: CellMap, c3: CellMap,
                            n1: multiset<SubId>, n2: multiset<SubId>)
    requires WellFormed(reg) && SubsDisjoint(c)
    requires forall j :: Memo(c1, j) == Memo(c, j)
    requires forall j :: Subs(c1, j) == Subs(c, j) && Subs(c2, j) == Subs(c, j) && Subs(c3, j) == Subs(c, j)
    requires forall j :: Memo(c2, j) != Memo(c1, j) ==> j in reg && Memo(c2, j) == Some(Val(reg, c, j))
    requires forall j :: Memo(c3, j) != Memo(c2, j) ==> j in reg && Memo(c3, j) == Some(Val(reg, c, j))
    requires Notifies(c1, c2, n1) && Notifies(c2, c3, n2)
    ensures forall id :: (n1 + n2)[id] <= 1
  {
    forall id
      ensures (n1 + n2)[id] <= 1
    {
      if id in n1 && id in n2 {
        var j1 := ChangedOwner(c1, c2, id);
        var j2 := ChangedOwner(c2, c3, id);
        SubsOwner(c, j1, j2, id);
        assert false;
      }
    }
  }

  /** The cell whose change put `id` among the changed subscribers. */
  lemma ChangedOwner(c1: CellMap, c2: CellMap, id: SubId) returns (j: Key)
    requires id in ChangedSubs(c1, c2)
    ensures id in Subs(c1, j) && Memo(c2, j) != Memo(c1, j)
  {
    j :| j in c1 && id in c1[j].subscribers && Memo(c2, j) != Memo(c1, j);
  }

  lemma InChangedSubs(c1: CellMap, c2: CellMap, j: Key, id: SubId)
    requires id in Subs(c1, j) && Memo(c2, j) != Memo(c1, j)
    ensures id in ChangedSubs(c1, c2)
  {
  }

  /** A subscriber id belongs to at most one cell. */
  lemma SubsOwner(c: CellMap, j1: Key, j2: Key, id: SubId)
    requires SubsDisjoint(c) && id in Subs(c, j1) && id in Subs(c, j2)
    ensures j1 == j2
  {
  }

  /** `Store.set`: writes `v` into `k`'s cell, creating the cell if needed, then
      propagates from `k`. The written atom reads back as `v`, no other
      primitive atom's value changes, and the notified subscribers are
      exactly those of the cells whose memorized value changed, each once;
      every such change memorizes the cell's value after the write. */
  function Set(reg: Registry, s: Store, k: Key, v: Value): (r: (Store, multiset<SubId>))
    requires Valid(reg, s) && k in reg
    ensures Valid(reg, r.0)
    ensures s.cells.Keys <= r.0.cells.Keys
    ensures forall j :: j in s.cells ==> s.cells[j].dependents <= r.0.cells[j].dependents
    ensures k in r.0.cells && r.0.cells[k].value == Some(v)
    ensures Memo(r.0.cells, k) == Some(v)
    ensures reg[k].Primitive? ==> Val(reg, r.0.cells, k) == v
    ensures forall j :: j in reg && j != k && reg[j].Primitive? ==> Val(reg, r.0.cells, j) == Val(reg, s.cells, j)
    ensures forall j :: j in s.cells && j != k && s.cells[j].value.Some? ==> r.0.cells[j].value == s.cells[j].value
    ensures forall j :: Subs(r.0.cells, j) == Subs(s.cells, j)
    ensures forall id :: id in r.1 <==> id in ChangedSubs(s.cells, r.0.cells)
    ensures forall id :: r.1[id] <= 1
    ensures forall j :: Memo(r.0.cells, j) != Memo(s.cells, j) && j != k ==>
      j in reg && Memo(r.0.cells, j) == Some(Val(reg, r.0.cells, j))
    ensures Memo(s.cells, k) != Some(v) && k in s.cells ==>
      forall d :: d in s.cells[k].dependents && d in r.0.cells ==>
        Memo(r.0.cells, d) == Some(Val(reg, r.0.cells, d))
    ensures forall j :: j in r.0.cells && j !in s.cells && j != k ==> j in reg && reg[j].Primitive?
  {
    var c := if k in s.cells then s.cells[k].(value := Some(v)) else NewCell(Some(v));
    var written := s.(cells := s.cells[k := c]);
    WrittenReady(reg, s, k, c);
    var (s1, n) := Trigger(reg, written, k, v);
    TriggerAddsEdges(reg, written, k, v);
    SetSound(reg, s, written, s1, k, v);
    SetSubs(reg, s, written, s1, k, v, n);
    SetMemo(reg, s, written, s1, k, v);
    SetValues(reg, s, written, s1, k, v);
    (s1, n)
  }

  /** `set` changes memorized values only at `k` and at the dependents `k`
      had before the write. */
  lemma SetConfined(reg: Registry, s: Store, k: Key, v: Value)
    requires Valid(reg, s) && k in reg
    ensures forall j :: Memo(Set(reg, s, k, v).0.cells, j) != Memo(s.cells, j) ==>
      j == k || (k in s.cells && j in s.cells[k].dependents)
  {
    var c := if k in s.cells then s.cells[k].(value := Some(v)) else NewCell(Some(v));
    var written := s.(cells := s.cells[k := c]);
    WrittenReady(reg, s, k, c);
    TriggerConfined(reg, written, k, v);
    assert Set(reg, s, k, v).0 == Trigger(reg, written, k, v).0;
    SetWithin(s.cells, written.cells, Trigger(reg, written, k, v).0.cells, k, v);
  }

  /** The write step of `set` keeps the memorized values and the dependents
      of the written cell, so the propagation after it changes only `k` and
      the dependents `k` had before the write. */
  lemma SetWithin(c: CellMap, w: CellMap, c1: CellMap, k: Key, v: Value)
    requires w == c[k := if k in c then c[k].(value := Some(v)) else NewCell(Some(v))]
    requires forall j :: Memo(c1, j) != Memo(w, j) ==> j == k || (k in w && j in w[k].dependents)
    ensures forall j :: Memo(c1, j) != Memo(c, j) ==> j == k || (k in c && j in c[k].dependents)
  {
    assert forall j :: j != k ==> Memo(w, j) == Memo(c, j);
    assert w[k].dependents == if k in c then c[k].dependents else {};
  }

  /** Writing a value keeps the edges and the subscribers of the cell. */
  lemma WrittenReady(reg: Registry, s: Store, k: Key, c: Cell)
    requires Valid(reg, s) && k in reg
    requires c == if k in s.cells then s.cells[k].(value := c.value) else NewCell(c.value)
    ensures Ready(reg, s.(cells := s.cells[k := c]))
  {
    var cells := s.cells[k := c];
    assert forall j :: j in cells ==> cells[j].dependents == {} || (j in s.cells && cells[j].dependents == s.cells[j].dependents);
    EdgesKept(reg, s.cells, cells);
    forall j1, j2, id | j1 in cells && j2 in cells && id in cells[j1].subscribers && id in cells[j2].subscribers
      ensures j1 == j2
    {
      assert id in s.cells[j1].subscribers && id in s.cells[j2].subscribers;
    }
  }

  /** `set` issues no subscriber ids and leaves the read scope as it was. */
  lemma SetKeepsNextSub(reg: Registry, s: Store, k: Key, v: Value)
    requires Valid(reg, s) && k in reg
    ensures Set(reg, s, k, v).0.nextSub == s.nextSub
  {
    var c := if k in s.cells then s.cells[k].(value := Some(v)) else NewCell(Some(v));
    var written := s.(cells := s.cells[k := c]);
    WrittenReady(reg, s, k, c);
    assert Set(reg, s, k, v) == Trigger(reg, written, k, v);
  }

  /** The write step of `set` adds no dependency record and the propagation
      only sound ones, so the records stay sound; the only cells created
      besides `k`'s are primitive ones. */
  lemma SetSound(reg: Registry, s: Store, written: Store, s1: Store, k: Key, v: Value)
    requires Valid(reg, s) && k in reg
    requires written == s.(cells := s.cells[k := if k in s.cells then s.cells[k].(value := Some(v)) else NewCell(Some(v))])
    requires Grows(reg, written.cells, s1.cells) && SoundNew(reg, written.cells, s1.cells)
    ensures EdgesSound(reg, s1.cells)
    ensures forall j :: j in s1.cells && j !in s.cells && j != k ==> j in reg && reg[j].Primitive?
  {
    assert forall j :: j in written.cells ==>
      written.cells[j].dependents == {} || (j in s.cells && written.cells[j].dependents == s.cells[j].dependents);
    SoundNewNone(reg, s.cells, written.cells);
    SoundNewKeeps(reg, s.cells, written.cells);
    SoundNewKeeps(reg, written.cells, s1.cells);
  }

  /** The subscribers after the write step of `set` and a propagation: the
      invariant holds and the notified ids are the changed subscribers. */
  lemma SetSubs(reg: Registry, s: Store, written: Store, s1: Store, k: Key, v: Value, n: multiset<SubId>)
    requires Valid(reg, s) && k in reg
    requires written == s.(cells := s.cells[k := if k in s.cells then s.cells[k].(value := Some(v)) else NewCell(Some(v))])
    requires Propagates(reg, written, s1) && Notifies(written.cells, s1.cells, n)
    requires EdgesSound(reg, s1.cells)
    ensures Valid(reg, s1)
    ensures forall j :: Subs(s1.cells, j) == Subs(s.cells, j)
    ensures forall id :: id in n <==> id in ChangedSubs(s.cells, s1.cells)
  {
    WrittenSame(s, written, k, v);
    GrowsAllSubs(reg, written.cells, s1.cells);
    ChangedSubsSame(s.cells, written.cells, s1.cells);
    SubsKept(s, s1);
  }

  /** The write step of `set` changes neither memorized values nor
      subscribers. */
  lemma WrittenSame(s: Store, written: Store, k: Key, v: Value)
    requires written == s.(cells := s.cells[k := if k in s.cells then s.cells[k].(value := Some(v)) else NewCell(Some(v))])
    ensures forall j :: Memo(written.cells, j) == Memo(s.cells, j) && Subs(written.cells, j) == Subs(s.cells, j)
  {
  }

  /** The memorized values after the write step of `set` and a propagation
      are values in the store after both. */
  lemma SetMemo(reg: Registry, s: Store, written: Store, s1: Store, k: Key, v: Value)
    requires WellFormed(reg) && k in reg && s1.cells.Keys <= reg.Keys
    requires written == s.(cells := s.cells[k := if k in s.cells then s.cells[k].(value := Some(v)) else NewCell(Some(v))])
    requires Grows(reg, written.cells, s1.cells)
    requires forall j :: Memo(s1.cells, j) != Memo(written.cells, j) && j != k ==>
      k < j && Memo(s1.cells, j) == Some(Val(reg, written.cells, j))
    requires Memo(written.cells, k) != Some(v) ==>
      forall d :: d in written.cells[k].dependents && d in s1.cells ==>
        Memo(s1.cells, d) == Some(Val(reg, written.cells, d))
    ensures forall j :: Memo(s1.cells, j) != Memo(s.cells, j) && j != k ==>
      j in reg && Memo(s1.cells, j) == Some(Val(reg, s1.cells, j))
    ensures Memo(s.cells, k) != Some(v) && k in s.cells ==>
      forall d :: d in s.cells[k].dependents && d in s1.cells ==>
        Memo(s1.cells, d) == Some(Val(reg, s1.cells, d))
  {
    assert forall j :: Memo(written.cells, j) == Memo(s.cells, j);
    ValuesAgree(reg, written.cells, s1.cells);
    if Memo(s.cells, k) != Some(v) && k in s.cells {
      assert written.cells[k].dependents == s.cells[k].dependents;
    }
  }

  /** What the write step of `set` does to stored values. */
  lemma SetValues(reg: Registry, s: Store, written: Store, s1: Store, k: Key, v: Value)
    requires WellFormed(reg) && k in reg
    requires written == s.(cells := s.cells[k := if k in s.cells then s.cells[k].(value := Some(v)) else NewCell(Some(v))])
    requires Grows(reg, written.cells, s1.cells)
    ensures k in s1.cells && s1.cells[k].value == Some(v)
    ensures s.cells.Keys <= s1.cells.Keys
    ensures forall j :: j in s.cells ==> s.cells[j].dependents <= s1.cells[j].dependents
    ensures reg[k].Primitive? ==> Val(reg, s1.cells, k) == v
    ensures forall j :: j in reg && j != k && reg[j].Primitive? ==> Val(reg, s1.cells, j) == Val(reg, s.cells, j)
    ensures forall j :: j in s.cells && j != k && s.cells[j].value.Some? ==> s1.cells[j].value == s.cells[j].value
  {
    assert written.cells[k].value == Some(v);
    forall j | j in reg && j != k && reg[j].Primitive?
      ensures Val(reg, s1.cells, j) == Val(reg, s.cells, j)
    {
      var d := reg[j].default;
      assert Stored(s1.cells, j, d) == Stored(written.cells, j, d);
      assert Stored(written.cells, j, d) == Stored(s.cells, j, d);
    }
    forall j | j in s.cells && j != k && s.cells[j].value.Some?
      ensures s1.cells[j].value == s.cells[j].value
    {
      assert written.cells[j] == s.cells[j];
    }
    forall j | j in s.cells
      ensures s.cells[j].dependents <= s1.cells[j].dependents
    {
      assert s.cells[j].dependents == written.cells[j].dependents;
    }
  }

  /** Changed subscribers depend only on memorized values and subscribers. */
  lemma ChangedSubsSame(c: CellMap, c1: CellMap, c2: CellMap)
    requires forall j :: Memo(c1, j) == Memo(c, j) && Subs(c1, j) == Subs(c, j)
    ensures ChangedSubs(c, c2) == ChangedSubs(c1, c2)
  {
    forall id | id in ChangedSubs(c, c2) ensures id in ChangedSubs(c1, c2) {
      var j := ChangedOwner(c, c2, id);
      InChangedSubs(c1, c2, j, id);
    }
    forall id | id in ChangedSubs(c1, c2) ensures id in ChangedSubs(c, c2) {
      var j := ChangedOwner(c1, c2, id);
      InChangedSubs(c, c2, j, id);
    }
  }

  /** The subscriber invariant only looks at subscribers and the id counter. */
  lemma SubsKept(s: Store, s1: Store)
    requires SubsOk(s) && s1.nextSub == s.nextSub
    requires forall j :: Subs(s1.cells, j) == Subs(s.cells, j)
    ensures SubsOk(s1)
  {
    forall k, id | k in s1.cells && id in s1.cells[k].subscribers
      ensures id < s1.nextSub
    {
      assert id in Subs(s.cells, k);
    }
    forall k1, k2, id | k1 in s1.cells && k2 in s1.cells && id in s1.cells[k1].subscribers && id in s1.cells[k2].subscribers
      ensures k1 == k2
    {
      assert id in Subs(s.cells, k1) && id in Subs(s.cells, k2);
    }
  }

  /** Write visibility: reading a primitive atom right after writing it
      returns the written value. */
  lemma SetThenGet(reg: Registry, s: Store, k: Key, v: Value)
    requires Valid(reg, s) && k in reg && reg[k].Primitive?
    ensures Read(reg, Set(reg, s, k, v).0, k).1 == v
  {
  }

  /** Cascade notification: when the write changes the written atom's
      memorized value, a subscriber of one of its dependents is notified
      exactly once if that dependent's value after the write differs from
      what it last memorized. When the written atom already memorized the
      value, the propagation stops at once and nobody is notified. */
  lemma CascadeNotifies(reg: Registry, s: Store, k: Key, v: Value, d: Key, id: SubId)
    requires Valid(reg, s) && k in reg && k in s.cells && Memo(s.cells, k) != Some(v)
    requires d in s.cells[k].dependents && id in Subs(s.cells, d)
    requires Memo(s.cells, d) != Some(Val(reg, Set(reg, s, k, v).0.cells, d))
    ensures Set(reg, s, k, v).1[id] == 1
  {
    var (s1, n) := Set(reg, s, k, v);
    assert d in s1.cells;
    InChangedSubs(s.cells, s1.cells, d, id);
  }

  /** Change suppression: writing the value the atom last notified about
      notifies nobody and memorizes nothing new. */
  lemma SetSuppressed(reg: Registry, s: Store, k: Key, v: Value)
    requires Valid(reg, s) && k in reg && Memo(s.cells, k) == Some(v)
    ensures Set(reg, s, k, v).1 == multiset{}
    ensures forall j :: Memo(Set(reg, s, k, v).0.cells, j) == Memo(s.cells, j)
  {
    var c := s.cells[k].(value := Some(v));
    var written := s.(cells := s.cells[k := c]);
    WrittenReady(reg, s, k, c);
    assert Trigger(reg, written, k, v) == (written, multiset{});
    assert forall j :: Memo(written.cells, j) == Memo(s.cells, j);
  }

  /** Every subscriber of an atom whose memorized value the write changed is
      notified exactly once, and nobody else is notified. */
  lemma SetNotifiesOnce(reg: Registry, s: Store, k: Key, v: Value, id: SubId)
    requires Valid(reg, s) && k in reg
    ensures Set(reg, s, k, v).1[id] == if id in ChangedSubs(s.cells, Set(reg, s, k, v).0.cells) then 1 else 0
  {
  }

  /** Writes reach only the written atom and its dependents: a subscriber of
      any other atom is not notified. */
  lemma SetSparesNonDependents(reg: Registry, s: Store, k: Key, v: Value, j: Key, id: SubId)
    requires Valid(reg, s) && k in reg && id in Subs(s.cells, j)
    requires j != k && !(k in s.cells && j in s.cells[k].dependents)
    ensures id !in Set(reg, s, k, v).1
  {
    var (s1, n) := Set(reg, s, k, v);
    SetConfined(reg, s, k, v);
    if id in n {
      var o := ChangedOwner(s.cells, s1.cells, id);
      SubsOwner(s.cells, o, j, id);
      assert false;
    }
  }

  /** The same in terms of the atoms alone: a subscriber of an atom whose
      value does not depend on the written atom is not notified, whatever
      dependency records the store holds. */
  lemma SetSparesUnrelated(reg: Registry, s: Store, k: Key, v: Value, j: Key, id: SubId)
    requires Valid(reg, s) && k in reg && j in reg && id in Subs(s.cells, j)
    requires j != k && k !in Leaves(reg, j)
    ensures id !in Set(reg, s, k, v).1
  {
    assert !(k in s.cells && j in s.cells[k].dependents);
    SetSparesNonDependents(reg, s, k, v, j, id);
  }
}
