/** Reading atoms: `Store.get`, the getter of each kind of atom, and
    `Store.getRaw`, which records dependency edges from the read scope. */
module Reading {
  import opened Values
  import opened Identity
  import opened Atoms
  import opened State

  /** The tracking loop of `getRaw`: every atom of the read scope except `k`
      itself is added to the dependents. */
  function Track(deps: set<Key>, scope: seq<Key>, k: Key): (r: set<Key>)
    ensures forall d :: d in r <==> d in deps || (d in scope && d != k)
    decreases |scope|
  {
    if scope == [] then deps
    else if scope[0] == k then Track(deps, scope[1..], k)
    else Track(deps + {scope[0]}, scope[1..], k)
  }

  /** `getRaw(key:defaultValue:)`: creates the cell with the default when it is
      missing, records the read scope as dependents, and returns the stored
      value, storing the default first when the cell holds none. */
  function GetRaw(s: Store, k: Key, default: Value): (r: (Store, Value))
    ensures r.1 == Stored(s.cells, k, default)
    ensures k in r.0.cells && r.0.cells[k].value == Some(r.1)
    ensures k in s.cells && s.cells[k].value.Some? ==> r.0.cells[k].value == s.cells[k].value
    ensures forall d :: d in r.0.cells[k].dependents <==>
      (k in s.cells && d in s.cells[k].dependents) || (d in s.scope && d != k)
    ensures Memo(r.0.cells, k) == Memo(s.cells, k) && Subs(r.0.cells, k) == Subs(s.cells, k)
    ensures r.0.cells.Keys == s.cells.Keys + {k}
    ensures forall j :: j in s.cells && j != k ==> r.0.cells[j] == s.cells[j]
    ensures r.0.scope == s.scope && r.0.nextSub == s.nextSub
  {
    var c := if k in s.cells then s.cells[k] else NewCell(Some(default));
    var tracked := c.(dependents := Track(c.dependents, s.scope, k));
    if tracked.value.Some? then
      (s.(cells := s.cells[k := tracked]), tracked.value.value)
    else
      (s.(cells := s.cells[k := tracked.(value := Some(default))]), default)
  }

  /** Reading a primitive atom only records derived atoms above it as its
      dependents, so the edge invariant is kept. */
  lemma GetRawEdges(reg: Registry, s: Store, k: Key, default: Value)
    requires WellFormed(reg) && k in reg && reg[k].Primitive? && EvalScope(reg, s.scope, k)
    ensures EdgesOk(reg, s.cells) ==> EdgesOk(reg, GetRaw(s, k, default).0.cells)
  {
    if EdgesOk(reg, s.cells) {
      var cells := GetRaw(s, k, default).0.cells;
      forall j, e | j in cells && e in cells[j].dependents
        ensures e in reg && j < e && reg[e].Derived?
      {
        if j != k || (k in s.cells && e in s.cells[k].dependents) {
          assert e in s.cells[j].dependents;
        } else {
          var i :| 0 <= i < |s.scope| && s.scope[i] == e;
        }
      }
    }
  }

  /** Every atom on the scope is a registered derived atom with key at least `lo`. */
  ghost predicate Readers(reg: Registry, scope: seq<Key>, lo: Key) {
    forall i :: 0 <= i < |scope| ==> scope[i] in reg && lo <= scope[i] && reg[scope[i]].Derived?
  }

  /** The scope while atom `k`'s rule runs: `k` itself, pushed by `get`, and
      derived atoms above it that are reading it. */
  ghost predicate EvalScope(reg: Registry, scope: seq<Key>, k: Key) {
    forall i :: 0 <= i < |scope| ==>
      scope[i] in reg && (scope[i] == k || (k < scope[i] && reg[scope[i]].Derived?))
  }

  /** `Store.get`: push the atom on the read scope, run its rule, pop. The value
      is the atom's value in the state before the read, the scope comes back
      as it was, nothing memorized changes, and every primitive atom reached
      now lists the whole scope plus `k` (but itself) among its dependents. */
  function Read(reg: Registry, s: Store, k: Key): (r: (Store, Value))
    requires WellFormed(reg) && k in reg && Readers(reg, s.scope, k + 1)
    ensures r.0.scope == s.scope && r.0.nextSub == s.nextSub
    ensures r.1 == Val(reg, s.cells, k)
    ensures Extends(reg, s.cells, r.0.cells)
    ensures EdgesOk(reg, s.cells) ==> EdgesOk(reg, r.0.cells)
    ensures forall p :: p in Leaves(reg, k) ==> Tracked(r.0.cells, p, s.scope + [k])
    decreases k, 2
  {
    var (s1, v) := Eval(reg, s.(scope := s.scope + [k]), k);
    (s1.(scope := s1.scope[..|s1.scope| - 1]), v)
  }

  /** The atom's getter (`_get`): `getRaw` with the default for a primitive
      atom, the rule over its inputs' values for a derived atom. It does not
      push `k` itself; `Read` does that. */
  function Eval(reg: Registry, s: Store, k: Key): (r: (Store, Value))
    requires WellFormed(reg) && k in reg && EvalScope(reg, s.scope, k)
    ensures r.0.scope == s.scope && r.0.nextSub == s.nextSub
    ensures r.1 == Val(reg, s.cells, k)
    ensures Extends(reg, s.cells, r.0.cells)
    ensures EdgesOk(reg, s.cells) ==> EdgesOk(reg, r.0.cells)
    ensures forall p :: p in Leaves(reg, k) ==> Tracked(r.0.cells, p, s.scope)
    decreases k, 1
  {
    match reg[k]
    case Primitive(_, d) =>
      GetRawEdges(reg, s, k, d);
      GetRaw(s, k, d)
    case Derived(_, inputs, f) =>
      var (s1, vs) := ReadAll(reg, s, inputs, k);
      (s1, f(vs))
  }

  /** Reads `ks` one after the other, threading the store. */
  function ReadAll(reg: Registry, s: Store, ks: seq<Key>, bound: Key): (r: (Store, seq<Value>))
    requires WellFormed(reg) && Readers(reg, s.scope, bound)
    requires forall i :: 0 <= i < |ks| ==> ks[i] in reg && ks[i] < bound
    ensures r.0.scope == s.scope && r.0.nextSub == s.nextSub
    ensures r.1 == Vals(reg, s.cells, ks, bound)
    ensures Extends(reg, s.cells, r.0.cells)
    ensures EdgesOk(reg, s.cells) ==> EdgesOk(reg, r.0.cells)
    ensures forall p :: p in LeavesOf(reg, ks, bound) ==> Tracked(r.0.cells, p, s.scope)
    decreases bound, 0, |ks|
  {
    if ks == [] then (s, [])
    else
      var (s1, v) := Read(reg, s, ks[0]);
      var (s2, vs) := ReadAll(reg, s1, ks[1..], bound);
      ReadAllStep(reg, s, s1, s2, ks, bound);
      (s2, [v] + vs)
  }

  /** The only dependency edges `get` adds run from a primitive atom the read
      reaches to an atom of the scope it started from, or to a derived atom
      it passes through that itself reaches that primitive atom. */
  lemma {:induction false} ReadAddsEdges(reg: Registry, s: Store, k: Key)
    requires WellFormed(reg) && k in reg && Readers(reg, s.scope, k + 1)
    ensures NewEdges(reg, s.cells, Read(reg, s, k).0.cells, s.scope, Leaves(reg, k), Through(reg, k))
    decreases k, 2
  {
    var s' := s.(scope := s.scope + [k]);
    EvalAddsEdges(reg, s', k);
    ReadEdges(reg, s.cells, Eval(reg, s', k).0.cells, s.scope, k);
  }

  /** The getter adds edges within the same bounds, from the scope it runs in. */
  lemma {:induction false} EvalAddsEdges(reg: Registry, s: Store, k: Key)
    requires WellFormed(reg) && k in reg && EvalScope(reg, s.scope, k)
    ensures NewEdges(reg, s.cells, Eval(reg, s, k).0.cells, s.scope, Leaves(reg, k), Through(reg, k))
    decreases k, 1
  {
    match reg[k]
    case Primitive(_, d) =>
      var c := GetRaw(s, k, d).0.cells;
      forall p, e | p in c && e in c[p].dependents && !(p in s.cells && e in s.cells[p].dependents)
        ensures EdgeWithin(reg, p, e, s.scope, Leaves(reg, k), Through(reg, k))
      {
        assert p == k;
      }
    case Derived(_, inputs, _) =>
      ReadAllAddsEdges(reg, s, inputs, k);
      NewEdgesWiden(reg, s.cells, Eval(reg, s, k).0.cells, s.scope,
        LeavesOf(reg, inputs, k), ThroughOf(reg, inputs, k), Leaves(reg, k), Through(reg, k));
  }

  /** Successive reads add the edges each of them may add. */
  lemma {:induction false} ReadAllAddsEdges(reg: Registry, s: Store, ks: seq<Key>, bound: Key)
    requires WellFormed(reg) && Readers(reg, s.scope, bound)
    requires forall i :: 0 <= i < |ks| ==> ks[i] in reg && ks[i] < bound
    ensures NewEdges(reg, s.cells, ReadAll(reg, s, ks, bound).0.cells, s.scope, LeavesOf(reg, ks, bound), ThroughOf(reg, ks, bound))
    decreases bound, 0, |ks|
  {
    if ks != [] {
      ReadAddsEdges(reg, s, ks[0]);
      var s1 := Read(reg, s, ks[0]).0;
      ReadAllAddsEdges(reg, s1, ks[1..], bound);
      NewEdgesJoin(reg, s.cells, s1.cells, ReadAll(reg, s, ks, bound).0.cells, s.scope,
        Leaves(reg, ks[0]), Through(reg, ks[0]), LeavesOf(reg, ks[1..], bound), ThroughOf(reg, ks[1..], bound));
    }
  }

  /** The atom `get` pushes is either primitive, and never its own dependent,
      or derived, and among the atoms the read passes through; so the edges
      bounded by the pushed scope are bounded by the scope before the push. */
  lemma ReadEdges(reg: Registry, c1: CellMap, c2: CellMap, scope: seq<Key>, k: Key)
    requires WellFormed(reg) && k in reg
    requires NewEdges(reg, c1, c2, scope + [k], Leaves(reg, k), Through(reg, k))
    ensures NewEdges(reg, c1, c2, scope, Leaves(reg, k), Through(reg, k))
  {
    forall p, d | p in c2 && d in c2[p].dependents && !(p in c1 && d in c1[p].dependents)
      ensures EdgeWithin(reg, p, d, scope, Leaves(reg, k), Through(reg, k))
    {
      assert EdgeWithin(reg, p, d, scope + [k], Leaves(reg, k), Through(reg, k));
      if reg[k].Derived? {
        assert k in Through(reg, k);
      }
    }
  }

  /** Larger sets of leaves and pass-through atoms bound more edges. */
  lemma NewEdgesWiden(reg: Registry, c1: CellMap, c2: CellMap, scope: seq<Key>,
                      leaves: set<Key>, through: set<Key>, leaves': set<Key>, through': set<Key>)
    requires WellFormed(reg) && leaves <= leaves' && through <= through'
    requires NewEdges(reg, c1, c2, scope, leaves, through)
    ensures NewEdges(reg, c1, c2, scope, leaves', through')
  {
    forall p, d | p in c2 && d in c2[p].dependents && !(p in c1 && d in c1[p].dependents)
      ensures EdgeWithin(reg, p, d, scope, leaves', through')
    {
      assert EdgeWithin(reg, p, d, scope, leaves, through);
    }
  }

  /** Two reads in a row add only the edges either of them may add. */
  lemma NewEdgesJoin(reg: Registry, c: CellMap, c1: CellMap, c2: CellMap, scope: seq<Key>,
                     leaves1: set<Key>, through1: set<Key>, leaves2: set<Key>, through2: set<Key>)
    requires WellFormed(reg)
    requires NewEdges(reg, c, c1, scope, leaves1, through1)
    requires NewEdges(reg, c1, c2, scope, leaves2, through2)
    ensures NewEdges(reg, c, c2, scope, leaves1 + leaves2, through1 + through2)
  {
    forall p, d | p in c2 && d in c2[p].dependents && !(p in c && d in c[p].dependents)
      ensures EdgeWithin(reg, p, d, scope, leaves1 + leaves2, through1 + through2)
    {
      if p in c1 && d in c1[p].dependents {
        assert EdgeWithin(reg, p, d, scope, leaves1, through1);
      } else {
        assert EdgeWithin(reg, p, d, scope, leaves2, through2);
      }
    }
  }

  /** Combines the first read of `ReadAll` with the rest. */
  lemma ReadAllStep(reg: Registry, s: Store, s1: Store, s2: Store, ks: seq<Key>, bound: Key)
    requires WellFormed(reg) && |ks| > 0
    requires forall i :: 0 <= i < |ks| ==> ks[i] in reg && ks[i] < bound
    requires Extends(reg, s.cells, s1.cells) && Extends(reg, s1.cells, s2.cells)
    requires forall p :: p in Leaves(reg, ks[0]) ==> Tracked(s1.cells, p, s.scope + [ks[0]])
    requires forall p :: p in LeavesOf(reg, ks[1..], bound) ==> Tracked(s2.cells, p, s.scope)
    ensures Extends(reg, s.cells, s2.cells)
    ensures Vals(reg, s1.cells, ks[1..], bound) == Vals(reg, s.cells, ks[1..], bound)
    ensures forall p :: p in LeavesOf(reg, ks, bound) ==> Tracked(s2.cells, p, s.scope)
  {
    ExtendsTrans(reg, s.cells, s1.cells, s2.cells);
    ValsCongruence(reg, s.cells, s1.cells, ks[1..], bound);
    forall p | p in Leaves(reg, ks[0])
      ensures Tracked(s2.cells, p, s.scope)
    {
      assert forall i :: 0 <= i < |s.scope| ==> (s.scope + [ks[0]])[i] == s.scope[i];
      TrackedGrows(reg, s1.cells, s2.cells, p, s.scope);
    }
  }

  /** A top-level read keeps the store invariant: it only adds primitive
      cells without subscribers and dependency records. */
  lemma ReadKeepsValid(reg: Registry, s: Store, k: Key)
    requires Valid(reg, s) && k in reg
    ensures Valid(reg, Read(reg, s, k).0)
  {
    var (s1, _) := Read(reg, s, k);
    GrowsSubsOk(reg, s, s1);
    ReadAddsEdges(reg, s, k);
    NewEdgesSound(reg, s.cells, s1.cells, Leaves(reg, k), Through(reg, k));
    SoundNewKeeps(reg, s.cells, s1.cells);
  }

  /** From an empty scope, the bounded records are sound: each ends at an atom
      the read passed through, whose own reads reach the record's atom. */
  lemma NewEdgesSound(reg: Registry, c1: CellMap, c2: CellMap, leaves: set<Key>, through: set<Key>)
    requires WellFormed(reg) && NewEdges(reg, c1, c2, [], leaves, through)
    ensures SoundNew(reg, c1, c2)
  {
    forall p, d | p in c2 && d in c2[p].dependents && !(p in c1 && d in c1[p].dependents)
      ensures d in reg && p in Leaves(reg, d)
    {
      assert EdgeWithin(reg, p, d, [], leaves, through);
    }
  }

  /** `get` as compiled with assertions disabled: the pop of the read scope
      sits inside an `assert`, so it is never run, and every atom read stays
      on the scope. The value read is still the atom's value and no primitive
      atom's value changes; the scope only grows, starting with `k`. */
  function ReadNoPop(reg: Registry, s: Store, k: Key): (r: (Store, Value))
    requires WellFormed(reg) && k in reg
    ensures r.1 == Val(reg, s.cells, k)
    ensures SameValues(reg, s.cells, r.0.cells)
    ensures |s.scope| < |r.0.scope| && r.0.scope[..|s.scope| + 1] == s.scope + [k]
    decreases k, 2
  {
    var (s1, v) := EvalNoPop(reg, s.(scope := s.scope + [k]), k);
    (s1, v)
  }

  /** The getters run by `ReadNoPop`. */
  function EvalNoPop(reg: Registry, s: Store, k: Key): (r: (Store, Value))
    requires WellFormed(reg) && k in reg
    ensures r.1 == Val(reg, s.cells, k)
    ensures SameValues(reg, s.cells, r.0.cells)
    ensures |s.scope| <= |r.0.scope| && r.0.scope[..|s.scope|] == s.scope
    decreases k, 1
  {
    match reg[k]
    case Primitive(_, d) => GetRaw(s, k, d)
    case Derived(_, inputs, f) =>
      var (s1, vs) := ReadAllNoPop(reg, s, inputs, k);
      (s1, f(vs))
  }

  function ReadAllNoPop(reg: Registry, s: Store, ks: seq<Key>, bound: Key): (r: (Store, seq<Value>))
    requires WellFormed(reg)
    requires forall i :: 0 <= i < |ks| ==> ks[i] in reg && ks[i] < bound
    ensures r.1 == Vals(reg, s.cells, ks, bound)
    ensures SameValues(reg, s.cells, r.0.cells)
    ensures |s.scope| <= |r.0.scope| && r.0.scope[..|s.scope|] == s.scope
    decreases bound, 0, |ks|
  {
    if ks == [] then (s, [])
    else
      var (s1, v) := ReadNoPop(reg, s, ks[0]);
      var (s2, vs) := ReadAllNoPop(reg, s1, ks[1..], bound);
      ValsCongruence(reg, s.cells, s1.cells, ks[1..], bound);
      PrefixTrans(s.scope, s1.scope, s2.scope);
      (s2, [v] + vs)
  }

  lemma PrefixTrans(a: seq<Key>, b: seq<Key>, c: seq<Key>)
    requires |a| <= |b| && b[..|a|] == a && |b| <= |c| && c[..|b|] == b
    ensures c[..|a|] == a
  {
    assert c[..|a|] == c[..|b|][..|a|];
  }

  /** With the pop left out, the scope after a read holds what it held before,
      plus exactly the atoms the read visited: the leaves it reached and the
      derived atoms it passed through, `k` among them. */
  lemma {:induction false} ReadNoPopScope(reg: Registry, s: Store, k: Key)
    requires WellFormed(reg) && k in reg
    ensures forall a :: a in ReadNoPop(reg, s, k).0.scope <==>
      a in s.scope || a in Leaves(reg, k) || a in Through(reg, k)
    decreases k, 2
  {
    EvalNoPopScope(reg, s.(scope := s.scope + [k]), k);
  }

  lemma {:induction false} EvalNoPopScope(reg: Registry, s: Store, k: Key)
    requires WellFormed(reg) && k in reg
    ensures reg[k].Primitive? ==> EvalNoPop(reg, s, k).0.scope == s.scope
    ensures reg[k].Derived? ==> forall a :: a in EvalNoPop(reg, s, k).0.scope <==>
      a in s.scope || a in LeavesOf(reg, reg[k].inputs, k) || a in ThroughOf(reg, reg[k].inputs, k)
    decreases k, 1
  {
    if reg[k].Derived? {
      ReadAllNoPopScope(reg, s, reg[k].inputs, k);
    }
  }

  lemma {:induction false} ReadAllNoPopScope(reg: Registry, s: Store, ks: seq<Key>, bound: Key)
    requires WellFormed(reg)
    requires forall i :: 0 <= i < |ks| ==> ks[i] in reg && ks[i] < bound
    ensures forall a :: a in ReadAllNoPop(reg, s, ks, bound).0.scope <==>
      a in s.scope || a in LeavesOf(reg, ks, bound) || a in ThroughOf(reg, ks, bound)
    decreases bound, 0, |ks|
  {
    if ks != [] {
      ReadNoPopScope(reg, s, ks[0]);
      var s1 := ReadNoPop(reg, s, ks[0]).0;
      ReadAllNoPopScope(reg, s1, ks[1..], bound);
    }
  }

  /** Two reads of primitive atoms in a row, with the pop left out: the first
      atom is still on the scope during the second read, so it is recorded as
      a dependent of the second, a primitive atom below it. The dependency
      records then break `EdgesOk`: a later write to atom 2 would re-read
      atom 1 and propagate from it as if atom 1 depended on atom 2. */
  lemma NoPopLinksPrimitives()
    ensures var reg := map[1 := Primitive(1, Int(0)), 2 := Primitive(2, Int(0))];
      var s := ReadNoPop(reg, ReadNoPop(reg, Empty, 1).0, 2).0;
      && s.scope == [1, 2]
      && 2 in s.cells && 1 in s.cells[2].dependents
      && !EdgesOk(reg, s.cells)
  {
    var reg := map[1 := Primitive(1, Int(0)), 2 := Primitive(2, Int(0))];
    var s1 := ReadNoPop(reg, Empty, 1).0;
    assert s1.scope == [1];
    var s2 := ReadNoPop(reg, s1, 2).0;
    assert s2.scope == [1, 2];
    assert 1 in s2.cells[2].dependents;
  }
}
