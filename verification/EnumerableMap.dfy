/**
 * The enumerable map the EnumerableMap template emits: an enumerable set of keys and a mapping that
 * reads as zero where nothing is stored, so that a stored zero must be told apart through the key set.
 */
module EnumerableMap {
  import opened Wrappers
  import opened Sequences
  import Keys = EnumerableSet

  /** A 32-byte word. */
  type Bytes32 = x: nat | x < 0x1_0000000000000000_0000000000000000_0000000000000000_0000000000000000

  datatype Op<K> = Put(k: K, value: Bytes32) | Delete(k: K)

  datatype MapError<K> = NonexistentKey(key: K) | IndexOutOfBounds

  function Apply<K(==)>(m: map<K, Bytes32>, op: Op<K>): map<K, Bytes32> {
    match op
    case Put(k, v) => m[k := v]
    case Delete(k) => m - {k}
  }

  /** The plain map a history of operations builds. */
  function Replay<K(==)>(history: seq<Op<K>>): map<K, Bytes32> {
    if history == [] then map[] else Apply(Replay(history[..|history| - 1]), history[|history| - 1])
  }

  /** What the same history does to the key set. */
  function KeyOp<K>(op: Op<K>): Keys.Op<K> {
    match op
    case Put(k, _) => Keys.Add(k)
    case Delete(k) => Keys.Remove(k)
  }

  /** Operation i is the last one on its key. */
  ghost predicate LastOn<K>(history: seq<Op<K>>, i: nat)
    requires i < |history|
  {
    forall j :: i < j < |history| ==> history[j].k != history[i].k
  }

  /** A key's entry is what the last operation on it left; a key never operated on has none. */
  lemma {:induction false} ReplayLast<K>(history: seq<Op<K>>, i: nat)
    requires i < |history| && LastOn(history, i)
    ensures history[i].k in Replay(history) <==> history[i].Put?
    ensures history[i].Put? ==> Replay(history)[history[i].k] == history[i].value
    decreases |history|
  {
    var n := |history| - 1;
    if i < n {
      assert history[n].k != history[i].k;
      assert forall j :: i < j < n ==> history[..n][j] == history[j];
      ReplayLast(history[..n], i);
    }
  }

  lemma {:induction false} ReplayUntouched<K>(history: seq<Op<K>>, k: K)
    requires forall j :: 0 <= j < |history| ==> history[j].k != k
    ensures k !in Replay(history)
    decreases |history|
  {
    if history != [] {
      var n := |history| - 1;
      assert forall j :: 0 <= j < n ==> history[..n][j] == history[j];
      ReplayUntouched(history[..n], k);
    }
  }

  /** A Solidity mapping reads as zero where nothing was written. */
  function Read<K(==)>(values: map<K, Bytes32>, k: K): Bytes32 {
    if k in values then values[k] else 0
  }

  /** The mapping reads as the plain map on its keys, and as zero everywhere else. */
  ghost predicate ReadsAs<K>(values: map<K, Bytes32>, m: map<K, Bytes32>) {
    && (forall k :: k in m ==> Read(values, k) == m[k])
    && (forall k :: k in values && k !in m ==> values[k] == 0)
  }

  lemma {:induction false} ReadsStep<K>(values: map<K, Bytes32>, m: map<K, Bytes32>, op: Op<K>)
    requires ReadsAs(values, m)
    ensures ReadsAs(Apply(values, op), Apply(m, op))
  {
  }

  /** The plain map's domain and the key set agree after every step. */
  lemma {:induction false} KeysStep<K>(m: map<K, Bytes32>, keys: seq<K>, op: Op<K>)
    requires Distinct(keys)
    requires m.Keys == Elements(keys)
    ensures Apply(m, op).Keys == Elements(Keys.Apply(keys, KeyOp(op)))
  {
    forall k
      ensures k in Apply(m, op).Keys <==> k in Elements(Keys.Apply(keys, KeyOp(op)))
    {
      Keys.ApplyMembers(keys, KeyOp(op), k);
      assert k in Elements(keys) <==> k in keys;
    }
  }

  class Map<K(==)> {
    const keys: Keys.Set<K>
    var values: map<K, Bytes32>
    ghost var history: seq<Op<K>>

    ghost predicate Valid()
      reads this, keys
    {
      keys.Valid() && Replay(history).Keys == Elements(keys.values) && ReadsAs(values, Replay(history))
    }

    constructor ()
      ensures Valid() && history == [] && fresh(keys)
    {
      keys := new Keys.Set();
      values := map[];
      history := [];
    }

    /** Adds or overwrites, and says whether the key was new. */
    method Set(k: K, value: Bytes32) returns (added: bool)
      requires Valid()
      modifies this, keys
      ensures Valid() && history == old(history) + [Put(k, value)]
      ensures Replay(history) == old(Replay(history))[k := value]
      ensures added <==> k !in old(Replay(history))
      ensures keys.values == if added then old(keys.values) + [k] else old(keys.values)
    {
      assert (history + [Put(k, value)])[..|history|] == history;
      Keys.ReplayMembers(keys.history, k);
      ReadsStep(values, Replay(history), Put(k, value));
      KeysStep(Replay(history), keys.values, Put(k, value));
      history := history + [Put(k, value)];
      values := values[k := value];
      added := keys.Add(k);
    }

    method Remove(k: K) returns (removed: bool)
      requires Valid()
      modifies this, keys
      ensures Valid() && history == old(history) + [Delete(k)]
      ensures Replay(history) == old(Replay(history)) - {k}
      ensures removed <==> k in old(Replay(history))
    {
      assert (history + [Delete(k)])[..|history|] == history;
      Keys.ReplayMembers(keys.history, k);
      ReadsStep(values, Replay(history), Delete(k));
      KeysStep(Replay(history), keys.values, Delete(k));
      history := history + [Delete(k)];
      values := values - {k};
      removed := keys.Remove(k);
    }

    method Contains(k: K) returns (r: bool)
      requires Valid()
      ensures r <==> k in Replay(history)
    {
      r := keys.Contains(k);
    }

    method Length() returns (n: nat)
      requires Valid()
      ensures n == |Replay(history)|
    {
      n := keys.Length();
      forall k
        ensures k in Replay(history).Keys <==> Keys.Added(keys.history, k)
      {
        Keys.ReplayMembers(keys.history, k);
      }
    }

    /** Agrees with the plain map even where a zero is stored. */
    method TryGet(k: K) returns (found: bool, value: Bytes32)
      requires Valid()
      ensures found <==> k in Replay(history)
      ensures value == if found then Replay(history)[k] else 0
    {
      value := Read(values, k);
      if value == 0 {
        found := Contains(k);
        return found, 0;
      } else {
        return true, value;
      }
    }

    /** Reverts exactly on the keys the plain map does not have. */
    method Get(k: K) returns (r: Result<Bytes32, MapError<K>>)
      requires Valid()
      ensures r == if k in Replay(history) then Ok(Replay(history)[k]) else Err(NonexistentKey(k))
    {
      var value := Read(values, k);
      var contained := Contains(k);
      if value == 0 && !contained {
        return Err(NonexistentKey(k));
      }
      return Ok(value);
    }

    method At(index: nat) returns (r: Result<(K, Bytes32), MapError<K>>)
      requires Valid()
      ensures r.Ok? <==> index < |keys.values|
      ensures r.Ok? ==> r.value.0 == keys.values[index] && r.value.0 in Replay(history)
      ensures r.Ok? ==> r.value.1 == Replay(history)[r.value.0]
    {
      var k := keys.At(index);
      if k.Err? {
        return Err(IndexOutOfBounds);
      }
      return Ok((k.value, Read(values, k.value)));
    }

    /** Every key once. */
    method KeyList() returns (r: seq<K>)
      requires Valid()
      ensures Distinct(r) && forall k :: k in r <==> k in Replay(history)
    {
      r := keys.Values();
    }
  }
}
