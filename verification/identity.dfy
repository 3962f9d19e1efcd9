/** The identity allocator: a counter that hands out one key per atom. */
module Identity {

  /** Atom keys. The counter starts at 0 and is incremented before use, so
      every issued key is positive. */
  type Key = nat

  /** The allocator's state: the last key handed out (0 before the first). */
  datatype Allocator = Allocator(last: nat)

  const Initial: Allocator := Allocator(0)

  /** Issues one key: the counter is incremented and its new value returned. */
  function NextId(a: Allocator): (r: (Allocator, Key))
    ensures a.last < r.1
    ensures r.0.last == r.1
  {
    (Allocator(a.last + 1), a.last + 1)
  }

  /** Issues `n` keys one after the other. */
  function NextIds(a: Allocator, n: nat): (r: (Allocator, seq<Key>))
    ensures |r.1| == n
    ensures r.0.last == a.last + n
    ensures forall i :: 0 <= i < n ==> r.1[i] == a.last + 1 + i
    ensures a.last <= r.0.last
    ensures forall i :: 0 <= i < n ==> a.last < r.1[i] <= r.0.last
    ensures forall i, j :: 0 <= i < j < n ==> r.1[i] < r.1[j]
    decreases n
  {
    if n == 0 then (a, [])
    else
      var (a1, k) := NextId(a);
      var (a2, ks) := NextIds(a1, n - 1);
      (a2, [k] + ks)
  }

  /** Keys issued by one run of the allocator never repeat. */
  lemma IssuedKeysDistinct(a: Allocator, n: nat, i: nat, j: nat)
    requires i < n && j < n && i != j
    ensures NextIds(a, n).1[i] != NextIds(a, n).1[j]
  {
    var ks := NextIds(a, n).1;
    if i < j {
      assert ks[i] < ks[j];
    } else {
      assert ks[j] < ks[i];
    }
  }

  /** A key issued later is strictly greater than every key issued before,
      whichever allocator state the earlier keys came from. */
  lemma LaterKeysGreater(a: Allocator, n: nat, m: nat)
    ensures forall i, j :: 0 <= i < n && 0 <= j < m ==>
      NextIds(a, n).1[i] < NextIds(NextIds(a, n).0, m).1[j]
  {
  }
}
