/**
  Vocabulary shared by the whole model: optional values, timestamps, and the two
  binary searches that the timelines and the critical graph are built on.
 */
module Common {

  datatype Option<+T> = None | Some(value: T)

  type Timestamp = nat
  type ThreadId = nat

  /** Unsigned 64-bit range; subtraction and addition of the sources wrap at this modulus. */
  const TWO_64: nat := 0x1_0000_0000_0000_0000

  type Word64 = x: nat | x < TWO_64

  function Min(a: nat, b: nat): nat { if a < b then a else b }

  function Max(a: nat, b: nat): nat { if a < b then b else a }

  /** Difference of two unsigned 64-bit values. */
  function Sub64(a: nat, b: nat): Word64 { (a - b) % TWO_64 }

  ghost predicate Sorted(keys: seq<nat>) {
    forall i, j | 0 <= i < j < |keys| :: keys[i] <= keys[j]
  }

  /** Index of the first key strictly after `t`. */
  function UpperBound(keys: seq<nat>, t: nat): (r: nat)
    requires Sorted(keys)
    ensures r <= |keys|
    ensures forall i | 0 <= i < r :: keys[i] <= t
    ensures forall i | r <= i < |keys| :: t < keys[i]
  {
    if keys == [] || t < keys[0] then 0 else 1 + UpperBound(keys[1..], t)
  }

  /** Index of the first key at or after `t`. */
  function LowerBound(keys: seq<nat>, t: nat): (r: nat)
    requires Sorted(keys)
    ensures r <= |keys|
    ensures forall i | 0 <= i < r :: keys[i] < t
    ensures forall i | r <= i < |keys| :: t <= keys[i]
  {
    if keys == [] || t <= keys[0] then 0 else 1 + LowerBound(keys[1..], t)
  }

  /** The keys of a map, each once, in the order in which they are visited. */
  ghost predicate IsOrder(order: seq<nat>, m: map<nat, nat>) {
    && (forall i, j | 0 <= i < j < |order| :: order[i] != order[j])
    && (forall k :: k in order <==> k in m)
    && |order| == |m|
  }

  /** The keys of a map, in the order in which an iteration happens to meet them. */
  method KeysOf(m: map<nat, nat>) returns (order: seq<nat>)
    ensures IsOrder(order, m)
  {
    order := [];
    var todo := m.Keys;
    while todo != {}
      invariant todo <= m.Keys && |order| + |todo| == |m|
      invariant forall k :: k in order <==> k in m && k !in todo
      invariant forall i, j | 0 <= i < j < |order| :: order[i] != order[j]
      decreases todo
    {
      var key :| key in todo;
      order := order + [key];
      todo := todo - {key};
    }
  }
}
