/**
  The dictionary's contents as a function of the writes applied to it:
  every `AddOrUpdate` and `RemoveKey` call is one `Op`.
 */
module History {
  import opened Wrappers

  datatype Op<K, V> = Put(key: K, value: V) | Remove(key: K)

  /** What `TryGetValue` finds for `k` in `m`. */
  function Lookup<K, V>(m: map<K, V>, k: K): (r: Option<V>)
  {
    if k in m then Some(m[k]) else None
  }

  /** The effect of one write on the mapping. */
  function Apply<K, V>(m: map<K, V>, op: Op<K, V>): (r: map<K, V>)
  {
    match op
    case Put(k, v) => m[k := v]
    case Remove(k) => m - {k}
  }

  /** The mapping reached from `m` by applying `ops` first to last. */
  function Replay<K, V>(m: map<K, V>, ops: seq<Op<K, V>>): (r: map<K, V>)
    decreases |ops|
  {
    if ops == [] then m else Replay(Apply(m, ops[0]), ops[1..])
  }

  /**
    The value key `k` should have after `ops`, read from the end of the
    history: the value of the last `Put` on `k` when no `Remove` of `k` comes
    after it, nothing when the last write on `k` is a `Remove`, and what the
    initial mapping held when `ops` never writes `k`.
   */
  function LatestValue<K, V>(initial: map<K, V>, ops: seq<Op<K, V>>, k: K): (r: Option<V>)
    decreases |ops|
  {
    if ops == [] then Lookup(initial, k)
    else
      var last := ops[|ops| - 1];
      if last.key == k then
        (match last
         case Put(_, v) => Some(v)
         case Remove(_) => None)
      else LatestValue(initial, ops[..|ops| - 1], k)
  }

  /** Appending a write to the history applies it to the replayed mapping. */
  lemma {:induction false} ReplaySnoc<K, V>(m: map<K, V>, ops: seq<Op<K, V>>, op: Op<K, V>)
    ensures Replay(m, ops + [op]) == Apply(Replay(m, ops), op)
    decreases |ops|
  {
    if ops == [] {
      assert [op][1..] == [];
    } else {
      assert (ops + [op])[0] == ops[0];
      assert (ops + [op])[1..] == ops[1..] + [op];
      ReplaySnoc(Apply(m, ops[0]), ops[1..], op);
    }
  }

  /**
    After any sequence of writes, looking a key up gives the value of the
    last `Put` on it that no later `Remove` of it followed, and otherwise
    nothing (or the initial entry when the key was never written).
   */
  lemma {:induction false} ReplayLookup<K, V>(m: map<K, V>, ops: seq<Op<K, V>>, k: K)
    ensures Lookup(Replay(m, ops), k) == LatestValue(m, ops, k)
    decreases |ops|
  {
    if ops != [] {
      var init, last := ops[..|ops| - 1], ops[|ops| - 1];
      assert ops == init + [last];
      ReplaySnoc(m, init, last);
      ReplayLookup(m, init, k);
    }
  }
}
