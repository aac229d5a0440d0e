/**
 * The checkpoint trace the Checkpoints template emits: (key, value) pairs pushed with non-decreasing
 * keys, looked up by binary search. `Replay` says what a whole history of push attempts leaves behind;
 * the lookups are specified by what they say about that history.
 */
module Checkpoints {
  import opened Wrappers

  datatype Checkpoint = Checkpoint(key: nat, value: nat)

  datatype CheckpointError = CheckpointUnorderedInsertion

  ghost predicate Increasing(s: seq<Checkpoint>) {
    forall i, j :: 0 <= i < j < |s| ==> s[i].key < s[j].key
  }

  /** What one push attempt leaves: a rejected one changes nothing, an equal key overwrites the last checkpoint. */
  function Insert(s: seq<Checkpoint>, c: Checkpoint): seq<Checkpoint> {
    if s == [] then [c]
    else if s[|s| - 1].key > c.key then s
    else if s[|s| - 1].key == c.key then s[|s| - 1 := c]
    else s + [c]
  }

  /** The checkpoints after a history of push attempts, rejected ones included. */
  function Replay(history: seq<Checkpoint>): seq<Checkpoint> {
    if history == [] then []
    else Insert(Replay(history[..|history| - 1]), history[|history| - 1])
  }

  /** Attempt i was not below any attempt before it; `PushAccepted` shows these are the ones that do not revert. */
  ghost predicate Accepted(history: seq<Checkpoint>, i: nat)
    requires i < |history|
  {
    forall j :: 0 <= j < i ==> history[j].key <= history[i].key
  }

  /** Attempt i is the last accepted one whose key is at most k. */
  ghost predicate LastAtMost(history: seq<Checkpoint>, k: nat, i: nat) {
    && i < |history| && Accepted(history, i) && history[i].key <= k
    && (forall j :: i < j < |history| && history[j].key <= k ==> !Accepted(history, j))
  }

  /** The value of the last checkpoint with key at most k, zero if there is none. */
  function Upper(s: seq<Checkpoint>, k: nat): nat {
    if s == [] then 0
    else if s[|s| - 1].key <= k then s[|s| - 1].value
    else Upper(s[..|s| - 1], k)
  }

  /** The value of the first checkpoint with key at least k, zero if there is none. */
  function Lower(s: seq<Checkpoint>, k: nat): nat {
    if s == [] then 0
    else if s[0].key >= k then s[0].value
    else Lower(s[1..], k)
  }

  lemma {:induction false} InsertIncreasing(s: seq<Checkpoint>, c: Checkpoint)
    requires Increasing(s)
    ensures Increasing(Insert(s, c))
  {
  }

  /** The checkpoints of every history have strictly increasing keys, and the last key is the largest attempted. */
  lemma {:induction false} ReplayIncreasing(history: seq<Checkpoint>)
    ensures Increasing(Replay(history))
    ensures Replay(history) == [] <==> history == []
    ensures history != [] ==>
      && (forall i :: 0 <= i < |history| ==> history[i].key <= Replay(history)[|Replay(history)| - 1].key)
      && (exists i :: 0 <= i < |history| && history[i].key == Replay(history)[|Replay(history)| - 1].key)
  {
    if history != [] {
      var n := |history| - 1;
      ReplayIncreasing(history[..n]);
      var s := Replay(history[..n]);
      InsertIncreasing(s, history[n]);
      if n > 0 && s[|s| - 1].key > history[n].key {
        var i :| 0 <= i < n && history[..n][i].key == s[|s| - 1].key;
        assert history[i].key == s[|s| - 1].key;
      } else {
        assert history[n].key == Replay(history)[|Replay(history)| - 1].key;
      }
      forall i | 0 <= i < |history|
        ensures history[i].key <= Replay(history)[|Replay(history)| - 1].key
      {
        assert i < n ==> history[..n][i] == history[i];
      }
    }
  }

  /** The next push goes through exactly when no earlier attempt, accepted or not, had a larger key. */
  lemma {:induction false} PushAccepted(history: seq<Checkpoint>, c: Checkpoint)
    ensures Replay(history) == [] || Replay(history)[|Replay(history)| - 1].key <= c.key
      <==> Accepted(history + [c], |history|)
  {
    ReplayIncreasing(history);
    var h := history + [c];
    if history != [] {
      var i :| 0 <= i < |history| && history[i].key == Replay(history)[|Replay(history)| - 1].key;
      assert h[i].key == history[i].key;
    }
  }

  lemma {:induction false} UpperInsert(s: seq<Checkpoint>, c: Checkpoint, k: nat)
    requires Increasing(s)
    ensures s == [] || s[|s| - 1].key <= c.key ==> Upper(Insert(s, c), k) == if c.key <= k then c.value else Upper(s, k)
  {
    var r := Insert(s, c);
    if s != [] && s[|s| - 1].key == c.key {
      assert r[..|r| - 1] == s[..|s| - 1];
    } else if s == [] || s[|s| - 1].key < c.key {
      assert r[..|r| - 1] == s;
    }
  }

  /** An upper lookup answers with the last accepted push whose key is at most k. */
  lemma {:induction false} UpperIsLastAccepted(history: seq<Checkpoint>, k: nat, i: nat)
    requires LastAtMost(history, k, i)
    ensures Upper(Replay(history), k) == history[i].value
    decreases |history|
  {
    var n := |history| - 1;
    var h := history[..n];
    ReplayIncreasing(h);
    UpperInsert(Replay(h), history[n], k);
    PushAccepted(h, history[n]);
    assert h + [history[n]] == history;
    if i < n {
      forall j | 0 <= j < n
        ensures Accepted(h, j) == Accepted(history, j)
      {
      }
      assert LastAtMost(h, k, i);
      UpperIsLastAccepted(h, k, i);
    }
  }

  /** It answers zero when no accepted push has a key that small. */
  lemma {:induction false} UpperWithoutPush(history: seq<Checkpoint>, k: nat)
    requires forall i :: 0 <= i < |history| && history[i].key <= k ==> !Accepted(history, i)
    ensures Upper(Replay(history), k) == 0
    decreases |history|
  {
    if history != [] {
      var n := |history| - 1;
      var h := history[..n];
      ReplayIncreasing(h);
      UpperInsert(Replay(h), history[n], k);
      PushAccepted(h, history[n]);
      assert h + [history[n]] == history;
      forall i | 0 <= i < n && h[i].key <= k
        ensures !Accepted(h, i)
      {
        assert !Accepted(history, i);
      }
      UpperWithoutPush(h, k);
    }
  }

  ghost predicate HoldsKey(s: seq<Checkpoint>, k: nat) {
    exists i :: 0 <= i < |s| && s[i].key == k
  }

  ghost predicate AcceptedKey(history: seq<Checkpoint>, k: nat) {
    exists i :: 0 <= i < |history| && history[i].key == k && Accepted(history, i)
  }

  lemma {:induction false} InsertKeys(s: seq<Checkpoint>, c: Checkpoint, k: nat)
    requires s == [] || s[|s| - 1].key <= c.key
    ensures HoldsKey(Insert(s, c), k) <==> c.key == k || HoldsKey(s, k)
  {
    var r := Insert(s, c);
    assert r[|r| - 1] == c;
    if HoldsKey(s, k) {
      var i :| 0 <= i < |s| && s[i].key == k;
      assert r[i].key == k;
    }
    if HoldsKey(r, k) && c.key != k {
      var i :| 0 <= i < |r| && r[i].key == k;
      assert s[i].key == k;
    }
  }

  lemma {:induction false} AcceptedKeySnoc(history: seq<Checkpoint>, c: Checkpoint, k: nat)
    ensures AcceptedKey(history + [c], k)
      <==> AcceptedKey(history, k) || (c.key == k && Accepted(history + [c], |history|))
  {
    var h := history + [c];
    forall i | 0 <= i < |history|
      ensures h[i] == history[i] && Accepted(h, i) == Accepted(history, i)
    {
      assert forall j :: 0 <= j <= i ==> h[j] == history[j];
    }
    if AcceptedKey(history, k) {
      var i :| 0 <= i < |history| && history[i].key == k && Accepted(history, i);
      assert h[i].key == k && Accepted(h, i);
    }
    if AcceptedKey(h, k) {
      var i :| 0 <= i < |h| && h[i].key == k && Accepted(h, i);
    }
  }

  lemma {:induction false} HeldKeySnoc(history: seq<Checkpoint>, c: Checkpoint, k: nat)
    ensures HoldsKey(Replay(history + [c]), k)
      <==> HoldsKey(Replay(history), k) || (c.key == k && Accepted(history + [c], |history|))
  {
    var s := Replay(history);
    assert (history + [c])[..|history|] == history;
    PushAccepted(history, c);
    if s == [] || s[|s| - 1].key <= c.key {
      InsertKeys(s, c, k);
    }
  }

  /** A key is held by a checkpoint exactly when an accepted push used it. */
  lemma {:induction false} KeysAreAccepted(history: seq<Checkpoint>, k: nat)
    ensures HoldsKey(Replay(history), k) <==> AcceptedKey(history, k)
    decreases |history|
  {
    if history != [] {
      var n := |history| - 1;
      var h := history[..n];
      KeysAreAccepted(h, k);
      HeldKeySnoc(h, history[n], k);
      AcceptedKeySnoc(h, history[n], k);
      assert h + [history[n]] == history;
    }
  }

  /** A position splits the keys at k: everything before it is at most k, everything from it on is above. */
  lemma {:induction false} UpperAtSplit(s: seq<Checkpoint>, k: nat, pos: nat)
    requires pos <= |s|
    requires forall i :: 0 <= i < pos ==> s[i].key <= k
    requires forall i :: pos <= i < |s| ==> s[i].key > k
    ensures Upper(s, k) == if pos == 0 then 0 else s[pos - 1].value
    decreases |s|
  {
    if pos < |s| {
      UpperAtSplit(s[..|s| - 1], k, pos);
    }
  }

  lemma {:induction false} LowerAtSplit(s: seq<Checkpoint>, k: nat, pos: nat)
    requires pos <= |s|
    requires forall i :: 0 <= i < pos ==> s[i].key < k
    requires pos < |s| ==> s[pos].key >= k
    ensures Lower(s, k) == if pos == |s| then 0 else s[pos].value
    decreases pos
  {
    if pos > 0 {
      LowerAtSplit(s[1..], k, pos - 1);
    }
  }

  /** A lower lookup is the upper lookup at the least accepted key that is at least k, zero when there is none. */
  lemma {:induction false} LowerIsNextKey(s: seq<Checkpoint>, k: nat, pos: nat)
    requires Increasing(s) && pos <= |s|
    requires forall i :: 0 <= i < pos ==> s[i].key < k
    requires pos < |s| ==> s[pos].key >= k
    ensures Lower(s, k) == if pos < |s| then Upper(s, s[pos].key) else 0
  {
    LowerAtSplit(s, k, pos);
    if pos < |s| {
      UpperAtSplit(s, s[pos].key, pos + 1);
    }
  }

  /** Over a history: at the least accepted key m at or above k, a lower lookup gives the last accepted push of key
      m. */
  lemma {:induction false} LowerIsLastAccepted(history: seq<Checkpoint>, k: nat, i: nat)
    requires i < |history| && history[i].key >= k
    requires LastAtMost(history, history[i].key, i)
    requires forall j :: 0 <= j < |history| && k <= history[j].key < history[i].key ==> !Accepted(history, j)
    ensures Lower(Replay(history), k) == history[i].value
  {
    var s := Replay(history);
    var m := history[i].key;
    ReplayIncreasing(history);
    KeysAreAccepted(history, m);
    assert AcceptedKey(history, m);
    var pos :| 0 <= pos < |s| && s[pos].key == m;
    forall q | 0 <= q < pos
      ensures s[q].key < k
    {
      KeysAreAccepted(history, s[q].key);
      assert HoldsKey(s, s[q].key);
      var j :| 0 <= j < |history| && history[j].key == s[q].key && Accepted(history, j);
    }
    LowerIsNextKey(s, k, pos);
    UpperIsLastAccepted(history, m, i);
  }

  /** The integer square root: the largest r with r * r <= n. */
  function FloorSqrt(n: nat): (r: nat)
    ensures r * r <= n < (r + 1) * (r + 1)
    ensures n > 0 ==> 0 < r <= n
  {
    if n == 0 then 0
    else
      var r := FloorSqrt(n - 1);
      if (r + 1) * (r + 1) <= n then r + 1 else r
  }

  /** The first index of the section [low, high) whose key is above `key`, or `high`. */
  method UpperBinaryLookup(s: seq<Checkpoint>, key: nat, low: nat, high: nat) returns (pos: nat)
    requires Increasing(s) && high <= |s|
    ensures low > high ==> pos == high
    ensures low <= high ==> low <= pos <= high
    ensures forall i :: low <= i < pos ==> s[i].key <= key
    ensures forall i :: pos <= i < high ==> s[i].key > key
  {
    var l, h := low, high;
    while l < h
      invariant h <= high && (low <= high ==> low <= l <= h) && (low > high ==> l == low && h == high)
      invariant forall i :: low <= i < l && i < high ==> s[i].key <= key
      invariant forall i :: h <= i < high ==> s[i].key > key
    {
      var mid := (l + h) / 2;
      if s[mid].key > key {
        h := mid;
      } else {
        l := mid + 1;
      }
    }
    pos := h;
  }

  /** The first index of the section [low, high) whose key is at least `key`, or `high`. */
  method LowerBinaryLookup(s: seq<Checkpoint>, key: nat, low: nat, high: nat) returns (pos: nat)
    requires Increasing(s) && high <= |s|
    ensures low > high ==> pos == high
    ensures low <= high ==> low <= pos <= high
    ensures forall i :: low <= i < pos ==> s[i].key < key
    ensures forall i :: pos <= i < high ==> s[i].key >= key
  {
    var l, h := low, high;
    while l < h
      invariant h <= high && (low <= high ==> low <= l <= h) && (low > high ==> l == low && h == high)
      invariant forall i :: low <= i < l && i < high ==> s[i].key < key
      invariant forall i :: h <= i < high ==> s[i].key >= key
    {
      var mid := (l + h) / 2;
      if s[mid].key < key {
        l := mid + 1;
      } else {
        h := mid;
      }
    }
    pos := h;
  }

  class Trace {
    var checkpoints: seq<Checkpoint>
    ghost var history: seq<Checkpoint>

    ghost predicate Valid()
      reads this
    {
      checkpoints == Replay(history)
    }

    constructor ()
      ensures Valid() && history == []
    {
      checkpoints := [];
      history := [];
    }

    /** Reverts exactly when an earlier attempt had a larger key; otherwise returns the replaced and the new value. */
    method Push(key: nat, value: nat) returns (r: Result<(nat, nat), CheckpointError>)
      requires Valid()
      modifies this
      ensures Valid() && history == old(history) + [Checkpoint(key, value)]
      ensures r.Ok? <==> Accepted(history, |old(history)|)
      ensures r.Ok? ==> r.value == (old(Upper(checkpoints, key)), value) && Upper(checkpoints, key) == value
      ensures r.Err? ==> checkpoints == old(checkpoints)
    {
      var c := Checkpoint(key, value);
      var pos := |checkpoints|;
      ReplayIncreasing(history);
      PushAccepted(history, c);
      UpperInsert(checkpoints, c, key);
      assert (history + [c])[..|history|] == history;
      history := history + [c];
      if pos > 0 {
        var last := checkpoints[pos - 1];
        if last.key > key {
          return Err(CheckpointUnorderedInsertion);
        }
        if last.key == key {
          checkpoints := checkpoints[pos - 1 := last.(value := value)];
        } else {
          checkpoints := checkpoints + [c];
        }
        return Ok((last.value, value));
      } else {
        checkpoints := checkpoints + [c];
        return Ok((0, value));
      }
    }

    method LowerLookup(key: nat) returns (value: nat)
      requires Valid()
      ensures value == Lower(Replay(history), key)
    {
      ReplayIncreasing(history);
      var len := |checkpoints|;
      var pos := LowerBinaryLookup(checkpoints, key, 0, len);
      LowerAtSplit(checkpoints, key, pos);
      value := if pos == len then 0 else checkpoints[pos].value;
    }

    method UpperLookup(key: nat) returns (value: nat)
      requires Valid()
      ensures value == Upper(Replay(history), key)
    {
      ReplayIncreasing(history);
      var len := |checkpoints|;
      var pos := UpperBinaryLookup(checkpoints, key, 0, len);
      UpperAtSplit(checkpoints, key, pos);
      value := if pos == 0 then 0 else checkpoints[pos - 1].value;
    }

    /** The square-root split narrows the search and never changes its answer. */
    method UpperLookupRecent(key: nat) returns (value: nat)
      requires Valid()
      ensures value == Upper(Replay(history), key)
    {
      ReplayIncreasing(history);
      var len := |checkpoints|;
      var low, high := 0, len;
      if len > 5 {
        var mid := len - FloorSqrt(len);
        if key < checkpoints[mid].key {
          high := mid;
        } else {
          low := mid + 1;
        }
      }
      var pos := UpperBinaryLookup(checkpoints, key, low, high);
      UpperAtSplit(checkpoints, key, pos);
      value := if pos == 0 then 0 else checkpoints[pos - 1].value;
    }

    /** The latest value is the upper lookup at any key no attempt exceeded. */
    method Latest() returns (value: nat)
      requires Valid()
      ensures forall k: nat :: (forall i :: 0 <= i < |history| ==> history[i].key <= k) ==>
          value == Upper(Replay(history), k)
    {
      ReplayIncreasing(history);
      var pos := |checkpoints|;
      value := if pos == 0 then 0 else checkpoints[pos - 1].value;
      forall k: nat | forall i :: 0 <= i < |history| ==> history[i].key <= k
        ensures value == Upper(Replay(history), k)
      {
        if pos > 0 {
          var i :| 0 <= i < |history| && history[i].key == checkpoints[pos - 1].key;
          assert checkpoints[pos - 1].key <= k;
        }
      }
    }
  }
}
