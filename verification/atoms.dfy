/** Atoms: immutable handles with a key and a production rule. */
module Atoms {
  import opened Values
  import opened Identity

  /** A primitive atom carries a default value; a derived atom reads the atoms
      listed in `inputs`, in order, and combines their values with `f`. */
  datatype Atom =
    | Primitive(key: Key, default: Value)
    | Derived(key: Key, inputs: seq<Key>, f: seq<Value> -> Value)

  /** The atoms that exist, by key. Atoms are compared by key only. */
  type Registry = map<Key, Atom>

  /** A derived atom reads only registered atoms created before it. */
  ghost predicate ReadsEarlier(reg: Registry, a: Atom) {
    a.Derived? ==> forall i :: 0 <= i < |a.inputs| ==> a.inputs[i] in reg && a.inputs[i] < a.key
  }

  /** Every atom is filed under its own key, and the "reads" relation points
      strictly downwards in key order, so it has no cycles. */
  ghost predicate WellFormed(reg: Registry) {
    forall k :: k in reg ==> reg[k].key == k && ReadsEarlier(reg, reg[k])
  }

  /** Every registered key was handed out by the allocator `a`. */
  ghost predicate Issued(a: Allocator, reg: Registry) {
    forall k :: k in reg ==> 0 < k <= a.last
  }

  /** `Atom(defaultValue)`: a primitive atom under a fresh key. */
  function NewPrimitive(a: Allocator, reg: Registry, default: Value): (r: (Allocator, Registry, Atom))
    requires WellFormed(reg) && Issued(a, reg)
    ensures r.2.Primitive? && r.2.default == default
    ensures r.2.key !in reg && r.1 == reg[r.2.key := r.2]
    ensures forall k :: k in reg ==> k < r.2.key
    ensures WellFormed(r.1) && Issued(r.0, r.1)
  {
    var (a1, key) := NextId(a);
    var atom := Primitive(key, default);
    (a1, reg[key := atom], atom)
  }

  /** `Atom(getter:)`: a derived atom under a fresh key. The model assumes
      its rule reads only atoms that already exist. A Swift closure can also
      capture a variable assigned a later atom, which the model leaves out. */
  function NewDerived(a: Allocator, reg: Registry, inputs: seq<Key>, f: seq<Value> -> Value): (r: (Allocator, Registry, Atom))
    requires WellFormed(reg) && Issued(a, reg)
    requires forall i :: 0 <= i < |inputs| ==> inputs[i] in reg
    ensures r.2.Derived? && r.2.inputs == inputs && r.2.f == f
    ensures r.2.key !in reg && r.1 == reg[r.2.key := r.2]
    ensures forall k :: k in reg ==> k < r.2.key
    ensures WellFormed(r.1) && Issued(r.0, r.1)
  {
    var (a1, key) := NextId(a);
    var atom := Derived(key, inputs, f);
    (a1, reg[key := atom], atom)
  }
}
