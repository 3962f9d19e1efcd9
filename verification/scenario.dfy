/** The two usage scenarios of the repository's tests, stated about the model: a
    counter atom and a derived "count is large" atom. */
module Scenario {
  import opened Values
  import opened Identity
  import opened Atoms
  import opened State
  import opened Reading
  import opened Propagation
  import opened Subscriptions

  /** The rule of `countIsLargeAtom`: its one input is larger than ten. */
  function IsLarge(vs: seq<Value>): Value {
    Bool(|vs| == 1 && vs[0].Int? && vs[0].i > 10)
  }

  /** `countAtom = Atom(0)` and then `countIsLargeAtom`, built in that order
      from a fresh allocator: each test is modelled on its own, against an
      empty store. */
  function Demo(): (reg: Registry)
    ensures Counter(reg)
  {
    var (a1, reg1, count) := NewPrimitive(Initial, map[], Int(0));
    var (_, reg2, _) := NewDerived(a1, reg1, [count.key], IsLarge);
    reg2
  }

  const Count: Key := 1
  const CountIsLarge: Key := 2

  /** The registry of the tests: the counter under key 1 with default 0, the
      derived atom under key 2 reading only the counter through `IsLarge`. */
  ghost predicate Counter(reg: Registry) {
    && WellFormed(reg)
    && reg.Keys == {Count, CountIsLarge}
    && reg[Count] == Primitive(Count, Int(0))
    && reg[CountIsLarge].Derived? && reg[CountIsLarge].inputs == [Count]
    && reg[CountIsLarge].f == IsLarge
  }

  /** The value of `countIsLargeAtom` follows the stored count. */
  lemma IsLargeVal(reg: Registry, cells: CellMap)
    requires Counter(reg)
    ensures Val(reg, cells, CountIsLarge) == IsLarge([Stored(cells, Count, Int(0))])
  {
    assert Vals(reg, cells, [Count], CountIsLarge) == [Val(reg, cells, Count)];
  }

  /** Reading the derived atom in a store reports whether the count there is
      large, and leaves the store valid. */
  lemma ReadIsLarge(reg: Registry, s: Store)
    requires Counter(reg)
    requires Valid(reg, s)
    ensures Valid(reg, Read(reg, s, CountIsLarge).0)
    ensures Read(reg, s, CountIsLarge).1 == IsLarge([Stored(s.cells, Count, Int(0))])
  {
    IsLargeVal(reg, s.cells);
    ReadKeepsValid(reg, s, CountIsLarge);
  }

  /** Setting the count and then reading the derived atom. */
  function ReadAfterWrite(reg: Registry, s: Store, x: int): (r: (Store, Value))
    requires Counter(reg)
    requires Valid(reg, s)
    ensures Valid(reg, r.0)
    ensures r.1 == Bool(x > 10)
  {
    var (s1, _) := Set(reg, s, Count, Int(x));
    ReadIsLarge(reg, s1);
    Read(reg, s1, CountIsLarge)
  }

  /** `testGeneralUsage`: on a fresh store the derived atom reads `false`;
      after the count is set to 233 it reads `true`. */
  function GeneralUsage(): (r: (Value, Value))
    ensures r == (Bool(false), Bool(true))
  {
    var reg := Demo();
    ReadIsLarge(reg, Empty);
    var (s1, before) := Read(reg, Empty, CountIsLarge);
    var (s2, after) := ReadAfterWrite(reg, s1, 233);
    (before, after)
  }

  /** The shape of the store between the steps of `testPubSub`: both atoms
      have cells, the derived atom is recorded as a dependent of the counter,
      and `ids` are the only subscribers, all on the derived atom. */
  ghost predicate Shape(reg: Registry, s: Store, ids: set<SubId>) {
    && Counter(reg) && Valid(reg, s)
    && Count in s.cells && CountIsLarge in s.cells
    && CountIsLarge in s.cells[Count].dependents
    && Subs(s.cells, CountIsLarge) == ids
    && forall j :: j != CountIsLarge ==> Subs(s.cells, j) == {}
  }

  /** Subscribing to the derived atom on a fresh store: the shape above with
      the one new subscriber, and nothing memorized yet. */
  lemma SubscribeFirst(reg: Registry)
    requires Counter(reg)
    ensures Shape(reg, Subscribe(reg, Empty, CountIsLarge).0, {Subscribe(reg, Empty, CountIsLarge).1.id})
    ensures Memo(Subscribe(reg, Empty, CountIsLarge).0.cells, Count) == None
    ensures Memo(Subscribe(reg, Empty, CountIsLarge).0.cells, CountIsLarge) == None
  {
    assert Valid(reg, Empty);
    SubscribeShape(reg, Empty);
  }

  /** Reading the derived atom reaches the counter only. */
  lemma IsLargeLeaves(reg: Registry)
    requires Counter(reg)
    ensures Leaves(reg, CountIsLarge) == {Count}
  {
    assert LeavesOf(reg, [Count][1..], CountIsLarge) == {};
  }

  /** Subscribing to the derived atom in a store without subscribers gives the
      shape above with the one new subscriber. */
  lemma SubscribeShape(reg: Registry, s: Store)
    requires Counter(reg)
    requires Valid(reg, s) && forall j :: Subs(s.cells, j) == {}
    ensures Shape(reg, Subscribe(reg, s, CountIsLarge).0, {Subscribe(reg, s, CountIsLarge).1.id})
  {
    IsLargeLeaves(reg);
    var (s0, h) := Subscribe(reg, s, CountIsLarge);
    assert Count in Leaves(reg, CountIsLarge);
    assert Subs(s0.cells, CountIsLarge) == {h.id};
  }

  /** What the test's subscriber leaves in its box after a write: when it is
      notified it reads the derived atom, otherwise the box stays empty. */
  function Box(reg: Registry, s: Store, n: multiset<SubId>): (r: Option<Value>)
    requires Counter(reg)
    requires Valid(reg, s)
    ensures r == if n == multiset{} then None else Some(IsLarge([Stored(s.cells, Count, Int(0))]))
  {
    ReadIsLarge(reg, s);
    if n == multiset{} then None else Some(Read(reg, s, CountIsLarge).1)
  }

  /** One `set(countAtom, value: x)` of `testPubSub`, with the box after it:
      the derived atom now memorizes `x > 10`, and its subscribers are
      notified once each exactly when that differs from what it memorized
      before. */
  function Write(reg: Registry, s: Store, ids: set<SubId>, x: int): (r: (Store, multiset<SubId>, Option<Value>))
    requires Counter(reg)
    requires Shape(reg, s, ids) && Memo(s.cells, Count) != Some(Int(x))
    ensures Shape(reg, r.0, ids)
    ensures Memo(r.0.cells, Count) == Some(Int(x))
    ensures Memo(r.0.cells, CountIsLarge) == Some(Bool(x > 10))
    ensures r.1 == if Memo(s.cells, CountIsLarge) == Some(Bool(x > 10)) then multiset{} else multiset(ids)
    ensures r.2 == if r.1 == multiset{} then None else Some(Bool(x > 10))
  {
    var (s1, n) := Set(reg, s, Count, Int(x));
    WriteNotifies(reg, s, ids, x);
    (s1, n, Box(reg, s1, n))
  }

  /** What one write memorizes on the derived atom and whom it notifies,
      from the contract of `set`. */
  lemma WriteNotifies(reg: Registry, s: Store, ids: set<SubId>, x: int)
    requires Counter(reg)
    requires Shape(reg, s, ids) && Memo(s.cells, Count) != Some(Int(x))
    ensures Memo(Set(reg, s, Count, Int(x)).0.cells, CountIsLarge) == Some(Bool(x > 10))
    ensures Set(reg, s, Count, Int(x)).1 ==
      if Memo(s.cells, CountIsLarge) == Some(Bool(x > 10)) then multiset{} else multiset(ids)
  {
    var (s1, n) := Set(reg, s, Count, Int(x));
    IsLargeVal(reg, s1.cells);
    assert Val(reg, s1.cells, Count) == Int(x);
    var changed := ChangedSubs(s.cells, s1.cells);
    forall id ensures n[id] == (if Memo(s.cells, CountIsLarge) == Some(Bool(x > 10)) then multiset{} else multiset(ids))[id] {
      SetNotifiesOnce(reg, s, Count, Int(x), id);
      if id in changed {
        var j := ChangedOwner(s.cells, s1.cells, id);
        assert j == CountIsLarge;
      } else if id in ids && Memo(s.cells, CountIsLarge) != Some(Bool(x > 10)) {
        InChangedSubs(s.cells, s1.cells, CountIsLarge, id);
      }
    }
  }

  /** The first two writes of `testPubSub`: 6, then 7. */
  function FirstWrites(reg: Registry, s: Store, id: SubId): (r: (Store, seq<multiset<SubId>>, seq<Option<Value>>))
    requires Counter(reg)
    requires Shape(reg, s, {id}) && Memo(s.cells, Count) == None && Memo(s.cells, CountIsLarge) == None
    ensures Shape(reg, r.0, {id})
    ensures Memo(r.0.cells, Count) == Some(Int(7)) && Memo(r.0.cells, CountIsLarge) == Some(Bool(false))
    ensures r.1 == [multiset{id}, multiset{}]
    ensures r.2 == [Some(Bool(false)), None]
  {
    assert multiset({id}) == multiset{id};
    var (s1, n1, b1) := Write(reg, s, {id}, 6);
    var (s2, n2, b2) := Write(reg, s1, {id}, 7);
    (s2, [n1, n2], [b1, b2])
  }

  /** The last writes of `testPubSub`: 42, then `dispose()` and 1. */
  function LastWrites(reg: Registry, s: Store, h: Subscription): (r: (seq<multiset<SubId>>, seq<Option<Value>>))
    requires Counter(reg)
    requires Shape(reg, s, {h.id}) && h.key == CountIsLarge
    requires Memo(s.cells, Count) == Some(Int(7)) && Memo(s.cells, CountIsLarge) == Some(Bool(false))
    ensures r.0 == [multiset{h.id}, multiset{}]
    ensures r.1 == [Some(Bool(true)), None]
  {
    assert multiset({h.id}) == multiset{h.id};
    var (s1, n1, b1) := Write(reg, s, {h.id}, 42);
    var (n2, b2) := WriteDisposed(reg, s1, h);
    ([n1, n2], [b1, b2])
  }

  /** `dispose()` and then the last write: nobody is notified and the box
      stays empty. */
  function WriteDisposed(reg: Registry, s: Store, h: Subscription): (r: (multiset<SubId>, Option<Value>))
    requires Counter(reg)
    requires Shape(reg, s, {h.id}) && h.key == CountIsLarge && Memo(s.cells, Count) == Some(Int(42))
    ensures r == (multiset{}, None)
  {
    DisposeShape(reg, s, h);
    var (_, n, b) := Write(reg, Dispose(s, h), {}, 1);
    (n, b)
  }

  /** `disposer.dispose()` leaves the shape with no subscriber and every
      memorized value as it was. */
  lemma DisposeShape(reg: Registry, s: Store, h: Subscription)
    requires Counter(reg)
    requires Shape(reg, s, {h.id}) && h.key == CountIsLarge
    ensures Shape(reg, Dispose(s, h), {})
    ensures forall j :: Memo(Dispose(s, h).cells, j) == Memo(s.cells, j)
  {
    DisposeKeepsValid(reg, s, h);
  }

  /** `testPubSub`: a subscriber of `countIsLargeAtom` is notified when the
      count goes to 6 (the derived value is memorized for the first time), not
      when it goes to 7 (still not large), again when it goes to 42, and not
      at all once its subscription is disposed. Each notification is a single
      call, and the box holds what the test expects after each write. The
      result is the subscription, the notifications of the four writes and
      the box after each of them. */
  function PubSub(): (r: (Subscription, seq<multiset<SubId>>, seq<Option<Value>>))
    ensures r.0.key == CountIsLarge
    ensures r.1 == [multiset{r.0.id}, multiset{}, multiset{r.0.id}, multiset{}]
    ensures r.2 == [Some(Bool(false)), None, Some(Bool(true)), None]
  {
    var reg := Demo();
    SubscribeFirst(reg);
    var (s0, h) := Subscribe(reg, Empty, CountIsLarge);
    var (s2, ns, bs) := FirstWrites(reg, s0, h.id);
    var (ms, cs) := LastWrites(reg, s2, h);
    (h, [ns[0], ns[1], ms[0], ms[1]], [bs[0], bs[1], cs[0], cs[1]])
  }
}
