/**
 * The enumerable set the EnumerableSet template emits: an array of members and, for each member, its
 * index plus one. `Replay` says what a history of adds and removes leaves in the array.
 */
module EnumerableSet {
  import opened Wrappers
  import opened Sequences

  datatype Op<T> = Add(v: T) | Remove(v: T)

  datatype IndexError = IndexOutOfBounds

  /** Swap and pop: the last element takes the place of the removed one. */
  function SwapAndPop<T>(s: seq<T>, i: nat): (r: seq<T>)
    requires i < |s|
    ensures |r| == |s| - 1
  {
    s[i := s[|s| - 1]][..|s| - 1]
  }

  function Apply<T(==)>(s: seq<T>, op: Op<T>): seq<T> {
    match op
    case Add(v) => if v in s then s else s + [v]
    case Remove(v) => if v in s then SwapAndPop(s, IndexOf(s, v)) else s
  }

  function Replay<T(==)>(history: seq<Op<T>>): seq<T> {
    if history == [] then [] else Apply(Replay(history[..|history| - 1]), history[|history| - 1])
  }

  function IndexOf<T(==)>(s: seq<T>, v: T): (i: nat)
    requires v in s
    ensures i < |s| && s[i] == v
  {
    if s[|s| - 1] == v then |s| - 1 else IndexOf(s[..|s| - 1], v)
  }

  /** v was added at some point and not removed since. */
  ghost predicate Added<T>(history: seq<Op<T>>, v: T) {
    exists i :: 0 <= i < |history| && history[i] == Add(v) && forall j :: i < j < |history| ==> history[j] != Remove(v)
  }

  lemma {:induction false} SwapAndPopMembers<T>(s: seq<T>, i: nat, x: T)
    requires Distinct(s) && i < |s|
    ensures Distinct(SwapAndPop(s, i))
    ensures x in SwapAndPop(s, i) <==> x in s && x != s[i]
  {
    var n := |s| - 1;
    var r := SwapAndPop(s, i);
    assert forall j :: 0 <= j < n ==> r[j] == if j == i then s[n] else s[j];
    if x in s && x != s[i] {
      var j :| 0 <= j < |s| && s[j] == x;
      assert r[if j == n then i else j] == x;
    }
  }

  lemma {:induction false} ApplyMembers<T>(s: seq<T>, op: Op<T>, x: T)
    requires Distinct(s)
    ensures Distinct(Apply(s, op))
    ensures x in Apply(s, op) <==> (x == op.v && op.Add?) || (x != op.v && x in s)
  {
    if op.Remove? && op.v in s {
      SwapAndPopMembers(s, IndexOf(s, op.v), x);
    }
  }

  lemma {:induction false} AddedSnoc<T>(history: seq<Op<T>>, op: Op<T>, x: T)
    ensures Added(history + [op], x) <==> op == Add(x) || (op != Remove(x) && Added(history, x))
  {
    var h := history + [op];
    if op == Add(x) {
      assert h[|history|] == Add(x);
    }
    if op != Remove(x) && Added(history, x) {
      var i :| 0 <= i < |history| && history[i] == Add(x) && forall j :: i < j < |history| ==> history[j] != Remove(x);
      assert h[i] == Add(x);
    }
    if Added(h, x) && op != Add(x) {
      var i :| 0 <= i < |h| && h[i] == Add(x) && forall j :: i < j < |h| ==> h[j] != Remove(x);
      assert history[i] == Add(x) && h[|history|] == op;
      forall j | i < j < |history|
        ensures history[j] != Remove(x)
      {
        assert h[j] == history[j];
      }
    }
  }

  /** After any history the array is duplicate-free and holds exactly the values added and not removed since. */
  lemma {:induction false} ReplayMembers<T>(history: seq<Op<T>>, x: T)
    ensures Distinct(Replay(history))
    ensures x in Replay(history) <==> Added(history, x)
    decreases |history|
  {
    if history != [] {
      var n := |history| - 1;
      ReplayMembers(history[..n], x);
      ApplyMembers(Replay(history[..n]), history[n], x);
      AddedSnoc(history[..n], history[n], x);
      assert history == history[..n] + [history[n]];
    }
  }

  /** The array that an operation leaves keeps every other member where it was, unless it was the last one. */
  lemma {:induction false} RemoveKeepsOthers<T>(s: seq<T>, v: T, i: nat)
    requires Distinct(s) && i < |s| && s[i] != v
    requires i < |s| - 1 || v !in s
    ensures i < |Apply(s, Remove(v))| && Apply(s, Remove(v))[i] == s[i]
  {
    if v in s {
      assert IndexOf(s, v) != i;
    }
  }

  /** Every member's position is its index plus one, every other value's position is zero. */
  ghost predicate Coherent<T>(values: seq<T>, positions: map<T, nat>) {
    && (forall i :: 0 <= i < |values| ==> values[i] in positions && positions[values[i]] == i + 1)
    && (forall v :: v in positions && positions[v] != 0 ==> v in values)
  }

  lemma {:induction false} CoherentDistinct<T>(values: seq<T>, positions: map<T, nat>)
    requires Coherent(values, positions)
    ensures Distinct(values)
  {
    forall i, j | 0 <= i < j < |values|
      ensures values[i] != values[j]
    {
      assert positions[values[i]] != positions[values[j]];
    }
  }

  lemma {:induction false} AppendCoherent<T>(values: seq<T>, positions: map<T, nat>, v: T)
    requires Coherent(values, positions) && v !in values
    ensures Coherent(values + [v], positions[v := |values| + 1])
  {
    forall x | x in positions && positions[x] != 0
      ensures x in values + [v]
    {
    }
  }

  /** Swap and pop, with the moved value's position updated and the removed one's cleared, keeps the two views
      together. */
  lemma {:induction false} SwapCoherent<T>(values: seq<T>, positions: map<T, nat>, i: nat)
    requires Coherent(values, positions) && i < |values|
    ensures Coherent(SwapAndPop(values, i), positions[values[|values| - 1] := i + 1] - {values[i]})
  {
    CoherentDistinct(values, positions);
    var r := SwapAndPop(values, i);
    var p := positions[values[|values| - 1] := i + 1] - {values[i]};
    assert forall j :: 0 <= j < |r| ==> r[j] == if j == i then values[|values| - 1] else values[j];
    forall v | v in p && p[v] != 0
      ensures v in r
    {
      SwapAndPopMembers(values, i, v);
    }
  }

  lemma {:induction false} RemoveCoherent<T>(values: seq<T>, positions: map<T, nat>, v: T, r: seq<T>, p: map<T, nat>)
    requires Coherent(values, positions) && v in positions && 0 < positions[v] <= |values|
    requires r == SwapAndPop(values, positions[v] - 1)
    requires p == (if positions[v] < |values| then positions[values[|values| - 1] := positions[v]] else positions) - {v}
    ensures r == Apply(values, Op.Remove(v)) && Coherent(r, p)
  {
    var i := positions[v] - 1;
    CoherentDistinct(values, positions);
    MemberPosition(values, positions, v);
    SwapCoherent(values, positions, i);
    assert positions[values[|values| - 1] := i + 1] - {v} == p;
  }

  lemma {:induction false} MemberPosition<T>(values: seq<T>, positions: map<T, nat>, v: T)
    requires Coherent(values, positions) && v in positions && positions[v] != 0
    ensures v in values && positions[v] <= |values| && IndexOf(values, v) == positions[v] - 1
  {
    var i := IndexOf(values, v);
    assert positions[values[i]] == i + 1;
  }

  class Set<T(==)> {
    var values: seq<T>
    var positions: map<T, nat>
    ghost var history: seq<Op<T>>

    /** A Solidity mapping reads as zero where nothing was written. */
    function Position(v: T): nat
      reads this
    {
      if v in positions then positions[v] else 0
    }

    ghost predicate Valid()
      reads this
    {
      Coherent(values, positions) && values == Replay(history)
    }

    constructor ()
      ensures Valid() && values == [] && history == []
    {
      values := [];
      positions := map[];
      history := [];
    }

    method Contains(v: T) returns (r: bool)
      requires Valid()
      ensures r <==> Added(history, v)
      ensures r <==> v in values
    {
      ReplayMembers(history, v);
      r := Position(v) != 0;
    }

    method Add(v: T) returns (added: bool)
      requires Valid()
      modifies this
      ensures Valid() && history == old(history) + [Op.Add(v)]
      ensures added <==> !old(Added(history, v))
      ensures values == if added then old(values) + [v] else old(values)
    {
      assert (history + [Op.Add(v)])[..|history|] == history;
      var contained := Contains(v);
      history := history + [Op.Add(v)];
      if !contained {
        AppendCoherent(values, positions, v);
        values := values + [v];
        positions := positions[v := |values|];
        return true;
      } else {
        return false;
      }
    }

    method Remove(v: T) returns (removed: bool)
      requires Valid()
      modifies this
      ensures Valid() && history == old(history) + [Op.Remove(v)]
      ensures removed <==> old(Added(history, v))
      ensures values == Apply(old(values), Op.Remove(v))
    {
      assert (history + [Op.Remove(v)])[..|history|] == history;
      ReplayMembers(history, v);
      history := history + [Op.Remove(v)];
      var position := Position(v);
      if position != 0 {
        MemberPosition(values, positions, v);
        var valueIndex := position - 1;
        var lastIndex := |values| - 1;
        if valueIndex != lastIndex {
          var lastValue := values[lastIndex];
          values := values[valueIndex := lastValue];
          positions := positions[lastValue := position];
        }
        values := values[..|values| - 1];
        positions := positions - {v};
        assert values == SwapAndPop(old(values), valueIndex);
        RemoveCoherent(old(values), old(positions), v, values, positions);
        return true;
      } else {
        return false;
      }
    }

    method Length() returns (n: nat)
      requires Valid()
      ensures forall s: set<T> :: (forall v :: v in s <==> Added(history, v)) ==> n == |s|
    {
      n := |values|;
      forall s: set<T> | forall v :: v in s <==> Added(history, v)
        ensures n == |s|
      {
        MembersAre(s);
      }
    }

    lemma {:induction false} MembersAre(s: set<T>)
      requires Valid()
      requires forall v :: v in s <==> Added(history, v)
      ensures |s| == |values|
    {
      forall v
        ensures v in s <==> v in Elements(values)
      {
        ReplayMembers(history, v);
      }
      assert s == Elements(values);
      CoherentDistinct(values, positions);
      DistinctCardinality(values);
    }

    /** Out of range reverts; in range yields a member, and different indices yield different members. */
    method At(index: nat) returns (r: Result<T, IndexError>)
      requires Valid()
      ensures r.Ok? <==> index < |values|
      ensures r.Ok? ==> r.value == values[index] && Added(history, r.value)
      ensures r.Ok? ==> forall j :: 0 <= j < |values| && j != index ==> values[j] != r.value
    {
      if index < |values| {
        CoherentDistinct(values, positions);
        ReplayMembers(history, values[index]);
        return Ok(values[index]);
      } else {
        return Err(IndexOutOfBounds);
      }
    }

    method Values() returns (r: seq<T>)
      requires Valid()
      ensures r == Replay(history) && Distinct(r)
    {
      CoherentDistinct(values, positions);
      r := values;
    }
  }
}
