/** The store's state: one cell per atom key, the read scope and the
    subscriber-id counter, together with the meaning of an atom's value in a
    given state and the invariants every public operation keeps. */
module State {
  import opened Values
  import opened Identity
  import opened Atoms

  /** Identity of a registered subscriber (the object identity of the
      type-erased subscriber box in the source). */
  type SubId = nat

  /** `AtomInternals`: the stored value, the last value subscribers were told
      about, the atoms recorded as depending on this one, and the subscribers. */
  datatype Cell = Cell(
    value: Option<Value>,
    memorized: Option<Value>,
    dependents: set<Key>,
    subscribers: set<SubId>)

  type CellMap = map<Key, Cell>

  /** The store: `stateMap`, `readScope`, and the source of fresh subscriber ids. */
  datatype Store = Store(cells: CellMap, scope: seq<Key>, nextSub: SubId)

  /** A store with no cells, an empty scope and no subscribers yet. */
  const Empty: Store := Store(map[], [], 0)

  /** A freshly created cell: nothing memorized, no dependents, no subscribers. */
  function NewCell(value: Option<Value>): Cell {
    Cell(value, None, {}, {})
  }

  /** The value a primitive atom reads as: what its cell stores, else its default. */
  function Stored(cells: CellMap, k: Key, default: Value): Value {
    if k in cells && cells[k].value.Some? then cells[k].value.value else default
  }

  function Memo(cells: CellMap, k: Key): Option<Value> {
    if k in cells then cells[k].memorized else None
  }

  function Subs(cells: CellMap, k: Key): set<SubId> {
    if k in cells then cells[k].subscribers else {}
  }

  /** Every subscriber registered anywhere in the store. */
  function AllSubs(cells: CellMap): set<SubId> {
    set k, id | k in cells && id in cells[k].subscribers :: id
  }

  /** Subscribers of the cells of `c1` whose memorized value differs in `c2`. */
  function ChangedSubs(c1: CellMap, c2: CellMap): set<SubId> {
    set k, id | k in c1 && id in c1[k].subscribers && Memo(c2, k) != Memo(c1, k) :: id
  }

  /** The value atom `k` has in a state: a primitive's stored value or default,
      a derived atom's rule applied to the values of its inputs. This is the
      reference the store's reads are proved against. */
  function Val(reg: Registry, cells: CellMap, k: Key): Value
    requires WellFormed(reg) && k in reg
    decreases k, 1
  {
    match reg[k]
    case Primitive(_, d) => Stored(cells, k, d)
    case Derived(_, inputs, f) => f(Vals(reg, cells, inputs, k))
  }

  function Vals(reg: Registry, cells: CellMap, ks: seq<Key>, bound: Key): (vs: seq<Value>)
    requires WellFormed(reg)
    requires forall i :: 0 <= i < |ks| ==> ks[i] in reg && ks[i] < bound
    ensures |vs| == |ks|
    decreases bound, 0, |ks|
  {
    if ks == [] then [] else [Val(reg, cells, ks[0])] + Vals(reg, cells, ks[1..], bound)
  }

  /** The primitive atoms that reading `k` reaches. */
  function Leaves(reg: Registry, k: Key): set<Key>
    requires WellFormed(reg) && k in reg
    decreases k, 1
  {
    match reg[k]
    case Primitive(_, _) => {k}
    case Derived(_, inputs, _) => LeavesOf(reg, inputs, k)
  }

  function LeavesOf(reg: Registry, ks: seq<Key>, bound: Key): set<Key>
    requires WellFormed(reg)
    requires forall i :: 0 <= i < |ks| ==> ks[i] in reg && ks[i] < bound
    decreases bound, 0, |ks|
  {
    if ks == [] then {} else Leaves(reg, ks[0]) + LeavesOf(reg, ks[1..], bound)
  }

  /** The derived atoms that reading `k` passes through, `k` included when it
      is derived: the atoms pushed on the read scope above a leaf. */
  function Through(reg: Registry, k: Key): set<Key>
    requires WellFormed(reg) && k in reg
    decreases k, 1
  {
    match reg[k]
    case Primitive(_, _) => {}
    case Derived(_, inputs, _) => {k} + ThroughOf(reg, inputs, k)
  }

  function ThroughOf(reg: Registry, ks: seq<Key>, bound: Key): set<Key>
    requires WellFormed(reg)
    requires forall i :: 0 <= i < |ks| ==> ks[i] in reg && ks[i] < bound
    decreases bound, 0, |ks|
  {
    if ks == [] then {} else Through(reg, ks[0]) + ThroughOf(reg, ks[1..], bound)
  }

  /** Every dependency edge `p -> d` in `c2` but not in `c1` starts at one of
      `leaves` and ends at another atom that was on `scope`, or at one of
      `through` whose own reads reach `p`. */
  ghost predicate NewEdges(reg: Registry, c1: CellMap, c2: CellMap, scope: seq<Key>, leaves: set<Key>, through: set<Key>)
    requires WellFormed(reg)
  {
    forall p, d :: p in c2 && d in c2[p].dependents && !(p in c1 && d in c1[p].dependents) ==>
      EdgeWithin(reg, p, d, scope, leaves, through)
  }

  ghost predicate EdgeWithin(reg: Registry, p: Key, d: Key, scope: seq<Key>, leaves: set<Key>, through: set<Key>)
    requires WellFormed(reg)
  {
    && p in leaves && d != p
    && (d in scope || (d in through && d in reg && p in Leaves(reg, d)))
  }

  /** Two states in which every primitive atom reads the same. */
  ghost predicate SameValues(reg: Registry, c1: CellMap, c2: CellMap) {
    forall k :: k in reg && reg[k].Primitive? ==>
      Stored(c1, k, reg[k].default) == Stored(c2, k, reg[k].default)
  }

  /** How reading and propagation may change the cells: cells are only added
      (for primitive atoms, with no subscribers),
      dependents only grow, subscribers stay, a present value stays, and every
      primitive atom still reads the same. Memorized values may change. */
  ghost predicate Grows(reg: Registry, c1: CellMap, c2: CellMap) {
    && c1.Keys <= c2.Keys
    && (forall k :: k in c1 ==>
          && c2[k].subscribers == c1[k].subscribers
          && c1[k].dependents <= c2[k].dependents
          && (c1[k].value.Some? ==> c2[k].value == c1[k].value))
    && (forall k :: k in c2 && k !in c1 ==>
          k in reg && reg[k].Primitive? && c2[k].subscribers == {})
    && SameValues(reg, c1, c2)
  }

  /** As `Grows`, and no memorized value changes: what a read may do. */
  ghost predicate Extends(reg: Registry, c1: CellMap, c2: CellMap) {
    Grows(reg, c1, c2) && forall k :: Memo(c2, k) == Memo(c1, k)
  }

  /** The dependency edges: cells exist only for registered atoms, every
      dependent is a registered derived atom with a larger key (so no atom is
      its own dependent), and only primitive cells have dependents. */
  ghost predicate EdgesOk(reg: Registry, cells: CellMap) {
    && cells.Keys <= reg.Keys
    && (forall k, d :: k in cells && d in cells[k].dependents ==>
          d in reg && k < d && reg[d].Derived?)
    && (forall k :: k in cells && cells[k].dependents != {} ==> reg[k].Primitive?)
  }

  /** Every recorded dependent reads the atom that records it: `getRaw` only
      records atoms on the read scope, and those are the atoms whose reads
      reached it. */
  ghost predicate EdgesSound(reg: Registry, cells: CellMap)
    requires WellFormed(reg)
  {
    forall p, d :: p in cells && d in cells[p].dependents ==> d in reg && p in Leaves(reg, d)
  }

  /** Every dependency record in `c2` but not in `c1` is sound. */
  ghost predicate SoundNew(reg: Registry, c1: CellMap, c2: CellMap)
    requires WellFormed(reg)
  {
    forall p, d :: p in c2 && d in c2[p].dependents && !(p in c1 && d in c1[p].dependents) ==>
      d in reg && p in Leaves(reg, d)
  }

  /** Subscriber ids were all issued by the store and each belongs to one cell. */
  ghost predicate SubsOk(s: Store) {
    && (forall k, id :: k in s.cells && id in s.cells[k].subscribers ==> id < s.nextSub)
    && SubsDisjoint(s.cells)
  }

  ghost predicate SubsDisjoint(cells: CellMap) {
    forall k1, k2, id :: k1 in cells && k2 in cells && id in cells[k1].subscribers && id in cells[k2].subscribers ==> k1 == k2
  }

  /** The invariant of a store between public operations; the read scope is
      empty because only a `get` in progress pushes onto it. */
  ghost predicate Valid(reg: Registry, s: Store) {
    && WellFormed(reg)
    && EdgesOk(reg, s.cells)
    && EdgesSound(reg, s.cells)
    && SubsOk(s)
    && s.scope == []
  }

  /** `p` has a cell whose dependents include every atom of `scope` but `p`. */
  ghost predicate Tracked(cells: CellMap, p: Key, scope: seq<Key>) {
    p in cells && forall i :: 0 <= i < |scope| && scope[i] != p ==> scope[i] in cells[p].dependents
  }

  /** Atom values depend only on what the primitive atoms read as. */
  lemma {:induction false} ValCongruence(reg: Registry, c1: CellMap, c2: CellMap, k: Key)
    requires WellFormed(reg) && k in reg && SameValues(reg, c1, c2)
    ensures Val(reg, c1, k) == Val(reg, c2, k)
    decreases k, 1
  {
    match reg[k]
    case Primitive(_, _) =>
    case Derived(_, inputs, _) => ValsCongruence(reg, c1, c2, inputs, k);
  }

  lemma {:induction false} ValsCongruence(reg: Registry, c1: CellMap, c2: CellMap, ks: seq<Key>, bound: Key)
    requires WellFormed(reg) && SameValues(reg, c1, c2)
    requires forall i :: 0 <= i < |ks| ==> ks[i] in reg && ks[i] < bound
    ensures Vals(reg, c1, ks, bound) == Vals(reg, c2, ks, bound)
    decreases bound, 0, |ks|
  {
    if ks != [] {
      ValCongruence(reg, c1, c2, ks[0]);
      ValsCongruence(reg, c1, c2, ks[1..], bound);
    }
  }

  lemma ValuesAgree(reg: Registry, c1: CellMap, c2: CellMap)
    requires WellFormed(reg) && SameValues(reg, c1, c2)
    ensures forall k :: k in reg ==> Val(reg, c1, k) == Val(reg, c2, k)
  {
    forall k | k in reg
      ensures Val(reg, c1, k) == Val(reg, c2, k)
    {
      ValCongruence(reg, c1, c2, k);
    }
  }

  lemma GrowsTrans(reg: Registry, c1: CellMap, c2: CellMap, c3: CellMap)
    requires Grows(reg, c1, c2) && Grows(reg, c2, c3)
    ensures Grows(reg, c1, c3)
  {
  }

  lemma ExtendsTrans(reg: Registry, c1: CellMap, c2: CellMap, c3: CellMap)
    requires Extends(reg, c1, c2) && Extends(reg, c2, c3)
    ensures Extends(reg, c1, c3)
  {
  }

  /** Growth keeps the set of registered subscribers. */
  lemma GrowsAllSubs(reg: Registry, c1: CellMap, c2: CellMap)
    requires Grows(reg, c1, c2)
    ensures AllSubs(c2) == AllSubs(c1)
    ensures forall k :: Subs(c2, k) == Subs(c1, k)
  {
    forall id | id in AllSubs(c2) ensures id in AllSubs(c1) {
      var k :| k in c2 && id in c2[k].subscribers;
      assert k in c1;
    }
    forall id | id in AllSubs(c1) ensures id in AllSubs(c2) {
      var k :| k in c1 && id in c1[k].subscribers;
      assert k in c2 && id in c2[k].subscribers;
    }
  }

  /** Growth keeps tracked dependencies. */
  lemma TrackedGrows(reg: Registry, c1: CellMap, c2: CellMap, p: Key, scope: seq<Key>)
    requires Grows(reg, c1, c2) && Tracked(c1, p, scope)
    ensures Tracked(c2, p, scope)
  {
  }

  /** Growth keeps subscriber ids in one cell each. */
  lemma GrowsDisjoint(reg: Registry, c1: CellMap, c2: CellMap)
    requires Grows(reg, c1, c2) && SubsDisjoint(c1)
    ensures SubsDisjoint(c2)
  {
    GrowsAllSubs(reg, c1, c2);
    forall k1, k2, id | k1 in c2 && k2 in c2 && id in c2[k1].subscribers && id in c2[k2].subscribers
      ensures k1 == k2
    {
      assert id in Subs(c1, k1) && id in Subs(c1, k2);
    }
  }

  /** Growth under the same counter keeps the subscriber invariant. */
  lemma GrowsSubsOk(reg: Registry, s: Store, r: Store)
    requires Grows(reg, s.cells, r.cells) && SubsOk(s) && r.nextSub == s.nextSub
    ensures SubsOk(r)
  {
    GrowsDisjoint(reg, s.cells, r.cells);
    GrowsAllSubs(reg, s.cells, r.cells);
    forall k, id | k in r.cells && id in r.cells[k].subscribers
      ensures id < r.nextSub
    {
      assert id in Subs(s.cells, k);
    }
  }

  /** Edges stay well formed when every cell keeps its dependents or has
      none. */
  lemma EdgesKept(reg: Registry, c1: CellMap, c2: CellMap)
    requires WellFormed(reg) && EdgesOk(reg, c1) && c2.Keys <= reg.Keys
    requires forall j :: j in c2 ==> c2[j].dependents == {} || (j in c1 && c2[j].dependents == c1[j].dependents)
    ensures EdgesOk(reg, c2)
  {
    forall j, d | j in c2 && d in c2[j].dependents
      ensures d in reg && j < d && reg[d].Derived?
    {
      assert j in c1 && d in c1[j].dependents;
    }
    forall j | j in c2 && c2[j].dependents != {}
      ensures reg[j].Primitive?
    {
      assert j in c1 && c1[j].dependents != {};
    }
  }

  /** Two steps in a row add only the records either of them adds. */
  lemma SoundNewJoin(reg: Registry, c: CellMap, c1: CellMap, c2: CellMap)
    requires WellFormed(reg) && SoundNew(reg, c, c1) && SoundNew(reg, c1, c2)
    ensures SoundNew(reg, c, c2)
  {
    forall p, d | p in c2 && d in c2[p].dependents && !(p in c && d in c[p].dependents)
      ensures d in reg && p in Leaves(reg, d)
    {
      if !(p in c1 && d in c1[p].dependents) {
        assert p in c2 && d in c2[p].dependents;
      }
    }
  }

  /** Adding only sound records to sound records keeps them sound. */
  lemma SoundNewKeeps(reg: Registry, c1: CellMap, c2: CellMap)
    requires WellFormed(reg) && EdgesSound(reg, c1) && SoundNew(reg, c1, c2)
    ensures EdgesSound(reg, c2)
  {
    forall p, d | p in c2 && d in c2[p].dependents
      ensures d in reg && p in Leaves(reg, d)
    {
      if p in c1 && d in c1[p].dependents {
        assert d in reg && p in Leaves(reg, d);
      }
    }
  }

  /** A step that keeps every cell's dependents, or leaves a cell without
      any, adds no record. */
  lemma SoundNewNone(reg: Registry, c1: CellMap, c2: CellMap)
    requires WellFormed(reg)
    requires forall j :: j in c2 ==> c2[j].dependents == {} || (j in c1 && c2[j].dependents == c1[j].dependents)
    ensures SoundNew(reg, c1, c2)
  {
    forall p, d | p in c2 && d in c2[p].dependents
      ensures p in c1 && d in c1[p].dependents
    {
      assert c2[p].dependents != {};
    }
  }

  /** `reg2` is `reg` with more atoms: every atom of `reg` is still there,
      unchanged, and both registries are well formed. Creating an atom while
      the store is in use does this. */
  ghost predicate RegistryGrows(reg: Registry, reg2: Registry) {
    && WellFormed(reg) && WellFormed(reg2)
    && forall k :: k in reg ==> k in reg2 && reg2[k] == reg[k]
  }

  /** New atoms change neither what an existing atom's reads reach nor the
      derived atoms they pass through. */
  lemma {:induction false} GrownLeaves(reg: Registry, reg2: Registry, k: Key)
    requires RegistryGrows(reg, reg2) && k in reg
    ensures Leaves(reg2, k) == Leaves(reg, k) && Through(reg2, k) == Through(reg, k)
    decreases k, 1
  {
    if reg[k].Derived? {
      GrownLeavesOf(reg, reg2, reg[k].inputs, k);
    }
  }

  lemma {:induction false} GrownLeavesOf(reg: Registry, reg2: Registry, ks: seq<Key>, bound: Key)
    requires RegistryGrows(reg, reg2)
    requires forall i :: 0 <= i < |ks| ==> ks[i] in reg && ks[i] < bound
    ensures LeavesOf(reg2, ks, bound) == LeavesOf(reg, ks, bound)
    ensures ThroughOf(reg2, ks, bound) == ThroughOf(reg, ks, bound)
    decreases bound, 0, |ks|
  {
    if ks != [] {
      GrownLeaves(reg, reg2, ks[0]);
      GrownLeavesOf(reg, reg2, ks[1..], bound);
    }
  }

  /** New atoms change no existing atom's value in any state. */
  lemma {:induction false} GrownVal(reg: Registry, reg2: Registry, cells: CellMap, k: Key)
    requires RegistryGrows(reg, reg2) && k in reg
    ensures Val(reg2, cells, k) == Val(reg, cells, k)
    decreases k, 1
  {
    if reg[k].Derived? {
      GrownVals(reg, reg2, cells, reg[k].inputs, k);
    }
  }

  lemma {:induction false} GrownVals(reg: Registry, reg2: Registry, cells: CellMap, ks: seq<Key>, bound: Key)
    requires RegistryGrows(reg, reg2)
    requires forall i :: 0 <= i < |ks| ==> ks[i] in reg && ks[i] < bound
    ensures Vals(reg2, cells, ks, bound) == Vals(reg, cells, ks, bound)
    decreases bound, 0, |ks|
  {
    if ks != [] {
      GrownVal(reg, reg2, cells, ks[0]);
      GrownVals(reg, reg2, cells, ks[1..], bound);
    }
  }

  /** A valid store stays valid, with every atom's value unchanged, when new
      atoms are created. */
  lemma GrownValid(reg: Registry, reg2: Registry, s: Store)
    requires RegistryGrows(reg, reg2) && Valid(reg, s)
    ensures Valid(reg2, s)
    ensures forall k :: k in reg ==> Val(reg2, s.cells, k) == Val(reg, s.cells, k)
  {
    forall p, d | p in s.cells && d in s.cells[p].dependents
      ensures d in reg2 && reg2[d].Derived? && p in Leaves(reg2, d)
    {
      GrownLeaves(reg, reg2, d);
    }
    forall k | k in reg ensures Val(reg2, s.cells, k) == Val(reg, s.cells, k) {
      GrownVal(reg, reg2, s.cells, k);
    }
  }

  /** `Atom(defaultValue)` and `Atom(getter:)` while a store is in use: the
      store stays valid under the larger registry and every existing atom
      keeps its value. */
  lemma NewAtomKeepsValid(a: Allocator, reg: Registry, s: Store, default: Value, inputs: seq<Key>, f: seq<Value> -> Value)
    requires Valid(reg, s) && Issued(a, reg)
    requires forall i :: 0 <= i < |inputs| ==> inputs[i] in reg
    ensures Valid(NewPrimitive(a, reg, default).1, s)
    ensures Valid(NewDerived(a, reg, inputs, f).1, s)
    ensures forall k :: k in reg ==>
      && Val(NewPrimitive(a, reg, default).1, s.cells, k) == Val(reg, s.cells, k)
      && Val(NewDerived(a, reg, inputs, f).1, s.cells, k) == Val(reg, s.cells, k)
  {
    GrownValid(reg, NewPrimitive(a, reg, default).1, s);
    GrownValid(reg, NewDerived(a, reg, inputs, f).1, s);
  }
}
