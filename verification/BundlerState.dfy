/**
 The bundler's mempool and bundling protocol as a state machine over values.

 An accepted entry is identified by its position in `entries`, because the program holds entries by
 reference: a resubmitted hash replaces the object in the mempool while the old object may still be in
 a bundle. A `Task` is a suspended call of the bundling routine; between two suspensions a step runs
 without interruption.
 */
module BundlerState {
  import opened Wrappers
  import opened Sequences
  import opened Sorting
  import opened JsMaps

  datatype Status = Pending | Sent | Mined | Failed

  datatype EntryState = EntryState(
    hash: string, receivedAt: int, status: Status, txHash: Option<string>, receipt: Option<string>)

  /** Where a bundling call is suspended: before submission, after it with `mined` entries settled, or
      reporting a failure. */
  datatype Pc = Preparing | Submitted(mined: nat) | Failing

  datatype Task = Task(batch: seq<nat>, pc: Pc)

  datatype State = State(
    entries: seq<EntryState>, pool: JsMap<string, nat>, inFlight: bool, tasks: seq<Task>, bundles: seq<seq<nat>>)

  datatype Event =
    | Accept(hash: string, now: int)
    | Tick
    | Forced
    | Submit(task: nat, tx: string)
    | MineNext(task: nat, receipt: string)
    | Fail(task: nat)
    | End(task: nat)

  const INIT := State([], Empty(), false, [], [])

  /** The most operations one bundle may hold. */
  function Cap(size: int): (c: nat)
    ensures 1 <= c <= 25
  {
    Max(1, Min(if size > 0 then size else 1, 25))
  }

  predicate IsPending(s: State, id: nat) {
    id < |s.entries| && s.entries[id].status.Pending?
  }

  function ReceivedAt(s: State, id: nat): int {
    if id < |s.entries| then s.entries[id].receivedAt else 0
  }

  function PendingIds(s: State): seq<nat>
    requires s.pool.Valid()
  {
    Filter(id => IsPending(s, id), s.pool.Values())
  }

  function SelectPending(size: int, s: State): seq<nat>
    requires s.pool.Valid()
  {
    var pending := Sort((a, b) => ReceivedAt(s, a) <= ReceivedAt(s, b), PendingIds(s));
    pending[..Min(|pending|, Cap(size))]
  }

  function Attempt(size: int, s: State, force: bool): State
    requires s.pool.Valid()
  {
    var batch := SelectPending(size, s);
    if s.inFlight then s
    else if !force && |batch| == 0 then s
    else if !force && |batch| < size then s
    else if |batch| == 0 then s
    else s.(inFlight := true, tasks := s.tasks + [Task(batch, Preparing)], bundles := s.bundles + [batch])
  }

  function MarkSent(entries: seq<EntryState>, ids: seq<nat>, tx: string): seq<EntryState> {
    seq(|entries|, k requires 0 <= k < |entries| =>
      if k in ids then entries[k].(status := Sent, txHash := Some(tx)) else entries[k])
  }

  function MarkFailed(entries: seq<EntryState>, ids: seq<nat>): seq<EntryState> {
    seq(|entries|, k requires 0 <= k < |entries| =>
      if k in ids then entries[k].(status := Failed) else entries[k])
  }

  function SetPc(s: State, i: nat, pc: Pc): State
    requires i < |s.tasks|
  {
    s.(tasks := s.tasks[i := s.tasks[i].(pc := pc)])
  }

  predicate Finished(t: Task) {
    t.pc.Failing? || (t.pc.Submitted? && t.pc.mined == |t.batch|)
  }

  /** One uninterrupted step. An event that the suspended calls do not allow changes nothing. */
  function Step(size: int, s: State, e: Event): (r: State)
    requires s.pool.Valid()
    ensures r.pool.Valid()
  {
    match e
    case Accept(hash, now) =>
      s.(entries := s.entries + [EntryState(hash, now, Pending, None, None)],
         pool := s.pool.Set(hash, |s.entries|))
    case Tick => Attempt(size, s, false)
    case Forced =>
      if size <= 1 || s.pool.Size() >= size then Attempt(size, s, true) else s
    case Submit(i, tx) =>
      if i < |s.tasks| && s.tasks[i].pc.Preparing? then
        SetPc(s, i, Submitted(0)).(entries := MarkSent(s.entries, s.tasks[i].batch, tx))
      else s
    case MineNext(i, receipt) =>
      if i < |s.tasks| && s.tasks[i].pc.Submitted? && s.tasks[i].pc.mined < |s.tasks[i].batch| then
        var done := s.tasks[i].pc.mined;
        var id := s.tasks[i].batch[done];
        SetPc(s, i, Submitted(done + 1)).(entries :=
          if id < |s.entries| then s.entries[id := s.entries[id].(status := Mined, receipt := Some(receipt))]
          else s.entries)
      else s
    case Fail(i) =>
      if i < |s.tasks| && (s.tasks[i].pc.Preparing? || s.tasks[i].pc == Submitted(0)) then
        SetPc(s, i, Failing).(entries := MarkFailed(s.entries, s.tasks[i].batch))
      else s
    case End(i) =>
      if i < |s.tasks| && Finished(s.tasks[i]) then
        s.(tasks := s.tasks[..i] + s.tasks[i + 1..], inFlight := false)
      else s
  }

  function Run(size: int, s: State, events: seq<Event>): (r: State)
    requires s.pool.Valid()
    ensures r.pool.Valid()
  {
    if events == [] then s
    else Step(size, Run(size, s, events[..|events| - 1]), events[|events| - 1])
  }

  // ------------------------------------------------------------------ what every step keeps

  function Bundled(s: State): seq<nat> {
    Flatten(s.bundles)
  }

  ghost predicate PoolConsistent(s: State) {
    && s.pool.Valid()
    && forall h | h in s.pool.entries :: s.pool.entries[h] < |s.entries| && s.entries[s.pool.entries[h]].hash == h
  }

  /** The lock is held exactly while one call is suspended, and that call has the latest bundle. */
  ghost predicate LockConsistent(s: State) {
    && |s.tasks| <= 1
    && (s.inFlight <==> |s.tasks| == 1)
    && (|s.tasks| == 1 ==> |s.bundles| > 0 && s.tasks[0].batch == s.bundles[|s.bundles| - 1])
  }

  ghost predicate DistinctHashes(s: State, b: seq<nat>) {
    && (forall i :: 0 <= i < |b| ==> b[i] < |s.entries|)
    && (forall i, j :: 0 <= i < j < |b| ==> s.entries[b[i]].hash != s.entries[b[j]].hash)
  }

  ghost predicate BundlesConsistent(size: int, s: State) {
    && Distinct(Bundled(s))
    && (forall id | id in Bundled(s) :: id < |s.entries|)
    && (forall b | b in s.bundles ::
          && 1 <= |b| <= Cap(size)
          && DistinctHashes(s, b))
  }

  function StatusAt(t: Task, k: nat): Status {
    match t.pc
    case Preparing => Pending
    case Submitted(mined) => if k < mined then Mined else Sent
    case Failing => Failed
  }

  /** The batch of the suspended call, if there is one. */
  function Current(s: State): seq<nat> {
    if s.tasks == [] then [] else s.tasks[0].batch
  }

  /** Never bundled means pending; bundled and no longer in flight means settled. */
  ghost predicate SettledOrPending(s: State) {
    forall id | 0 <= id < |s.entries| && id !in Current(s) ::
      if id in Bundled(s) then s.entries[id].status == Mined || s.entries[id].status == Failed
      else s.entries[id].status == Pending
  }

  /** In flight means what the suspended call says. */
  ghost predicate InFlightStatus(s: State) {
    s.tasks != [] ==>
      && (s.tasks[0].pc.Submitted? ==> s.tasks[0].pc.mined <= |s.tasks[0].batch|)
      && forall k :: 0 <= k < |s.tasks[0].batch| ==>
           && s.tasks[0].batch[k] < |s.entries|
           && s.entries[s.tasks[0].batch[k]].status == StatusAt(s.tasks[0], k)
  }

  ghost predicate ReceiptsMatch(s: State) {
    forall id | 0 <= id < |s.entries| :: s.entries[id].receipt.Some? <==> s.entries[id].status == Mined
  }

  ghost predicate StatusConsistent(s: State) {
    SettledOrPending(s) && InFlightStatus(s) && ReceiptsMatch(s)
  }

  ghost predicate Inv(size: int, s: State) {
    PoolConsistent(s) && LockConsistent(s) && BundlesConsistent(size, s) && StatusConsistent(s)
  }

  lemma {:induction false} PoolValuesDistinct(s: State)
    requires PoolConsistent(s)
    ensures Distinct(s.pool.Values())
    ensures forall id | id in s.pool.Values() :: id < |s.entries| && s.entries[id].hash in s.pool.entries
                                              && s.pool.entries[s.entries[id].hash] == id
  {
    var v := s.pool.Values();
    forall i, j | 0 <= i < j < |v|
      ensures v[i] != v[j]
    {
      assert s.entries[v[i]].hash == s.pool.keys[i];
      assert s.entries[v[j]].hash == s.pool.keys[j];
    }
  }

  lemma {:induction false} SelectionMembers(size: int, s: State)
    requires PoolConsistent(s)
    ensures
      var b := SelectPending(size, s);
      && |b| == Min(|PendingIds(s)|, Cap(size))
      && Distinct(b)
      && (forall id | id in b :: id in s.pool.Values() && IsPending(s, id))
  {
    var leq := (a: nat, b: nat) => ReceivedAt(s, a) <= ReceivedAt(s, b);
    var p := id => IsPending(s, id);
    var b := SelectPending(size, s);
    PoolValuesDistinct(s);
    FilterDistinct(p, s.pool.Values());
    SortDistinct(leq, PendingIds(s));
    SortElements(leq, PendingIds(s));
    forall id | id in b
      ensures id in s.pool.Values() && IsPending(s, id)
    {
      SortMember(leq, PendingIds(s), id);
      FilterMember(p, s.pool.Values(), id);
    }
  }

  /** A selection is sorted by receive time, and nothing it leaves behind is older. */
  lemma {:induction false} SelectionOldest(size: int, s: State)
    requires PoolConsistent(s)
    ensures
      var b := SelectPending(size, s);
      && (forall i, j :: 0 <= i < j < |b| ==> ReceivedAt(s, b[i]) <= ReceivedAt(s, b[j]))
      && (forall x, y | x in b && y in s.pool.Values() && IsPending(s, y) && y !in b ::
          ReceivedAt(s, x) <= ReceivedAt(s, y))
  {
    var leq := (a: nat, b: nat) => ReceivedAt(s, a) <= ReceivedAt(s, b);
    var all := Sort(leq, PendingIds(s));
    var b := SelectPending(size, s);
    SortSorted(leq, PendingIds(s));
    assert b == all[..|b|];
    forall x, y | x in b && y in s.pool.Values() && IsPending(s, y) && y !in b
      ensures ReceivedAt(s, x) <= ReceivedAt(s, y)
    {
      FilterMember(id => IsPending(s, id), s.pool.Values(), y);
      SortMember(leq, PendingIds(s), y);
      var i :| 0 <= i < |b| && b[i] == x;
      var j :| 0 <= j < |all| && all[j] == y;
      assert all[i] == x;
      assert forall k | 0 <= k < |b| :: all[k] in b;
      assert leq(all[i], all[j]);
    }
  }

  /** What the invariant needs to know about a selection. */
  ghost predicate Fresh(size: int, s: State, b: seq<nat>)
    requires s.pool.Valid()
  {
    && 1 <= |b| <= Cap(size)
    && Distinct(b)
    && (forall id | id in b :: IsPending(s, id) && id in s.pool.Values())
    && DistinctHashes(s, b)
  }

  lemma {:induction false} SelectionFresh(size: int, s: State)
    requires PoolConsistent(s) && SelectPending(size, s) != []
    ensures Fresh(size, s, SelectPending(size, s))
  {
    SelectionMembers(size, s);
    PoolHashes(s, SelectPending(size, s));
  }

  lemma {:induction false} PoolHashes(s: State, b: seq<nat>)
    requires PoolConsistent(s) && Distinct(b)
    requires forall id | id in b :: id in s.pool.Values()
    ensures DistinctHashes(s, b)
  {
    PoolValuesDistinct(s);
    assert forall i | 0 <= i < |b| :: b[i] in b;
    forall i, j | 0 <= i < j < |b|
      ensures s.entries[b[i]].hash != s.entries[b[j]].hash
    {
      assert s.pool.entries[s.entries[b[i]].hash] == b[i];
    }
  }

  lemma {:induction false} StartBundles(size: int, s: State, b: seq<nat>)
    requires PoolConsistent(s) && BundlesConsistent(size, s) && SettledOrPending(s) && s.tasks == []
    requires Fresh(size, s, b)
    ensures BundlesConsistent(size, s.(bundles := s.bundles + [b]))
    ensures Bundled(s.(bundles := s.bundles + [b])) == Bundled(s) + b
    ensures forall id | id in b :: id !in Bundled(s)
  {
    FlattenSnoc(s.bundles, b);
    DistinctConcat(Bundled(s), b);
    assert forall i | 0 <= i < |b| :: b[i] in b;
  }

  lemma {:induction false} StartInv(size: int, s: State, b: seq<nat>)
    requires Inv(size, s) && s.tasks == [] && Fresh(size, s, b)
    ensures Inv(size, s.(inFlight := true, tasks := [Task(b, Preparing)], bundles := s.bundles + [b]))
  {
    var r := s.(inFlight := true, tasks := [Task(b, Preparing)], bundles := s.bundles + [b]);
    StartBundles(size, s, b);
    assert Bundled(r) == Bundled(s) + b;
    assert Current(r) == b;
    assert SettledOrPending(r);
    forall k | 0 <= k < |b|
      ensures b[k] < |s.entries| && s.entries[b[k]].status == Pending
    {
      assert b[k] in b;
    }
    assert BundlesConsistent(size, r);
  }

  /** An attempt either changes nothing or takes the lock for the current selection. */
  lemma {:induction false} AttemptCases(size: int, s: State, force: bool)
    requires PoolConsistent(s) && LockConsistent(s)
    ensures
      var r := Attempt(size, s, force);
      var b := SelectPending(size, s);
      r == s || (
        && s.tasks == [] && Fresh(size, s, b)
        && r == s.(inFlight := true, tasks := [Task(b, Preparing)], bundles := s.bundles + [b]))
  {
    if Attempt(size, s, force) != s {
      SelectionFresh(size, s);
    }
  }

  lemma {:induction false} AttemptInv(size: int, s: State, force: bool)
    requires Inv(size, s)
    ensures Inv(size, Attempt(size, s, force))
  {
    AttemptCases(size, s, force);
    if Attempt(size, s, force) != s {
      StartInv(size, s, SelectPending(size, s));
    }
  }

  /** The suspended call's batch is the tail of everything ever bundled. */
  lemma {:induction false} BatchBundled(size: int, s: State)
    requires LockConsistent(s) && BundlesConsistent(size, s) && |s.tasks| == 1
    ensures forall id | id in Current(s) :: id in Bundled(s)
    ensures Distinct(Current(s))
  {
    var n := |s.bundles| - 1;
    assert s.bundles == s.bundles[..n] + [s.bundles[n]];
    assert Bundled(s) == Flatten(s.bundles[..n]) + s.bundles[n];
    var p := |Flatten(s.bundles[..n])|;
    forall i, j | 0 <= i < j < |s.bundles[n]|
      ensures s.bundles[n][i] != s.bundles[n][j]
    {
      assert Bundled(s)[p + i] != Bundled(s)[p + j];
    }
  }

  /** Moving the suspended call forward, while touching only its own entries, keeps the invariant. */
  lemma {:induction false} ProgressInv(size: int, s: State, r: State)
    requires Inv(size, s) && |s.tasks| == 1 && |r.tasks| == 1
    requires r == s.(tasks := r.tasks, entries := r.entries)
    requires r.tasks[0].batch == s.tasks[0].batch && |r.entries| == |s.entries|
    requires forall id | 0 <= id < |s.entries| :: r.entries[id].hash == s.entries[id].hash
    requires forall id | 0 <= id < |s.entries| && id !in Current(s) :: r.entries[id] == s.entries[id]
    requires InFlightStatus(r)
    requires forall id | 0 <= id < |s.entries| && id in Current(s) ::
               r.entries[id].receipt.Some? <==> r.entries[id].status == Mined
    ensures Inv(size, r)
  {
    assert Bundled(r) == Bundled(s) && Current(r) == Current(s);
    assert SettledOrPending(r);
    forall id | 0 <= id < |r.entries|
      ensures r.entries[id].receipt.Some? <==> r.entries[id].status == Mined
    {
      if id !in Current(s) {
        assert r.entries[id] == s.entries[id];
      }
    }
    forall b | b in r.bundles
      ensures forall i :: 0 <= i < |b| ==> b[i] < |r.entries| && r.entries[b[i]].hash == s.entries[b[i]].hash
    {
    }
  }

  lemma {:induction false} SubmitInv(size: int, s: State, i: nat, tx: string)
    requires Inv(size, s)
    ensures Inv(size, Step(size, s, Submit(i, tx)))
  {
    var r := Step(size, s, Submit(i, tx));
    if r != s {
      forall k | 0 <= k < |s.tasks[0].batch|
        ensures r.entries[s.tasks[0].batch[k]].status == Sent
        ensures s.entries[s.tasks[0].batch[k]].receipt.None?
      {
        assert s.entries[s.tasks[0].batch[k]].status == StatusAt(s.tasks[0], k);
      }
      ProgressInv(size, s, r);
    }
  }

  lemma {:induction false} MineInv(size: int, s: State, i: nat, receipt: string)
    requires Inv(size, s)
    ensures Inv(size, Step(size, s, MineNext(i, receipt)))
  {
    var r := Step(size, s, MineNext(i, receipt));
    if r != s {
      BatchBundled(size, s);
      var done := s.tasks[0].pc.mined;
      forall k | 0 <= k < |s.tasks[0].batch|
        ensures r.entries[s.tasks[0].batch[k]].status == StatusAt(r.tasks[0], k)
      {
        assert s.entries[s.tasks[0].batch[k]].status == StatusAt(s.tasks[0], k);
        assert k != done ==> s.tasks[0].batch[k] != s.tasks[0].batch[done];
      }
      ProgressInv(size, s, r);
    }
  }

  lemma {:induction false} FailInv(size: int, s: State, i: nat)
    requires Inv(size, s)
    ensures Inv(size, Step(size, s, Fail(i)))
  {
    var r := Step(size, s, Fail(i));
    if r != s {
      forall k | 0 <= k < |s.tasks[0].batch|
        ensures r.entries[s.tasks[0].batch[k]].status == Failed
        ensures s.entries[s.tasks[0].batch[k]].receipt.None?
      {
        assert s.entries[s.tasks[0].batch[k]].status == StatusAt(s.tasks[0], k);
      }
      ProgressInv(size, s, r);
    }
  }

  lemma {:induction false} EndInv(size: int, s: State, i: nat)
    requires Inv(size, s)
    ensures Inv(size, Step(size, s, End(i)))
  {
    var r := Step(size, s, End(i));
    if r != s {
      BatchBundled(size, s);
      assert r.tasks == [];
      forall id | id in Current(s)
        ensures id in Bundled(r) && (r.entries[id].status == Mined || r.entries[id].status == Failed)
      {
        var k :| 0 <= k < |s.tasks[0].batch| && s.tasks[0].batch[k] == id;
        assert s.entries[id].status == StatusAt(s.tasks[0], k);
      }
    }
  }

  lemma {:induction false} AcceptInv(size: int, s: State, hash: string, now: int)
    requires Inv(size, s)
    ensures Inv(size, Step(size, s, Accept(hash, now)))
  {
    var r := Step(size, s, Accept(hash, now));
    assert Bundled(r) == Bundled(s);
    forall b | b in r.bundles
      ensures forall i :: 0 <= i < |b| ==> b[i] < |r.entries| && r.entries[b[i]] == s.entries[b[i]]
    {
    }
  }

  lemma {:induction false} StepInv(size: int, s: State, e: Event)
    requires Inv(size, s)
    ensures Inv(size, Step(size, s, e))
  {
    match e
    case Accept(h, now) => AcceptInv(size, s, h, now);
    case Tick => AttemptInv(size, s, false);
    case Forced => AttemptInv(size, s, true);
    case Submit(i, tx) => SubmitInv(size, s, i, tx);
    case MineNext(i, rc) => MineInv(size, s, i, rc);
    case Fail(i) => FailInv(size, s, i);
    case End(i) => EndInv(size, s, i);
  }

  /** Safety over every interleaving: at most one bundle is in flight, no accepted entry enters two
      bundles, and statuses are exactly what bundle membership says. */
  lemma {:induction false} RunSafe(size: int, events: seq<Event>)
    ensures Inv(size, Run(size, INIT, events))
  {
    if events != [] {
      RunSafe(size, events[..|events| - 1]);
      StepInv(size, Run(size, INIT, events[..|events| - 1]), events[|events| - 1]);
    }
  }

  // ------------------------------------------------------------------ one entry's life

  /** Pending to sent to mined, or failed from either of the first two. */
  predicate Moves(a: Status, b: Status) {
    a == b || (a.Pending? && b.Sent?) || (a.Sent? && b.Mined?) || ((a.Pending? || a.Sent?) && b.Failed?)
  }

  /** Steps append at most one entry and never rewrite a hash or a receive time. */
  lemma {:induction false} StepEntries(size: int, s: State, e: Event)
    requires s.pool.Valid()
    ensures
      var r := Step(size, s, e);
      && |r.entries| == |s.entries| + (if e.Accept? then 1 else 0)
      && (e.Accept? ==> r.entries[|s.entries|].receivedAt == e.now)
      && (forall id | 0 <= id < |s.entries| ::
            r.entries[id].hash == s.entries[id].hash && r.entries[id].receivedAt == s.entries[id].receivedAt)
      && (forall id: nat :: id < |s.entries| ==> ReceivedAt(r, id) == ReceivedAt(s, id))
  {
  }

  lemma {:induction false} StepMoves(size: int, s: State, e: Event, id: nat)
    requires Inv(size, s) && id < |s.entries|
    ensures |s.entries| <= |Step(size, s, e).entries|
    ensures Moves(s.entries[id].status, Step(size, s, e).entries[id].status)
    ensures s.entries[id].status.Mined? || s.entries[id].status.Failed? ==>
        Step(size, s, e).entries[id] == s.entries[id]
  {
    StepEntries(size, s, e);
    if s.tasks != [] {
      BatchBundled(size, s);
    }
    BatchMoves(size, s, e, id);
  }

  lemma {:induction false} BatchMoves(size: int, s: State, e: Event, id: nat)
    requires s.pool.Valid() && |s.tasks| <= 1 && InFlightStatus(s) && Distinct(Current(s))
    requires id < |s.entries| <= |Step(size, s, e).entries|
    ensures Moves(s.entries[id].status, Step(size, s, e).entries[id].status)
    ensures s.entries[id].status.Mined? || s.entries[id].status.Failed? ==>
        Step(size, s, e).entries[id] == s.entries[id]
  {
    if id in Current(s) {
      var k :| 0 <= k < |s.tasks[0].batch| && s.tasks[0].batch[k] == id;
      assert s.entries[id].status == StatusAt(s.tasks[0], k);
    }
  }

  /** Once an entry is mined or failed it never changes again, in any continuation of any run. */
  lemma {:induction false} RunKeepsSettled(size: int, s: State, events: seq<Event>, id: nat)
    requires Inv(size, s) && id < |s.entries|
    requires s.entries[id].status.Mined? || s.entries[id].status.Failed?
    ensures
      var r := Run(size, s, events);
      Inv(size, r) && id < |r.entries| && r.entries[id] == s.entries[id]
  {
    if events != [] {
      var before := Run(size, s, events[..|events| - 1]);
      RunKeepsSettled(size, s, events[..|events| - 1], id);
      StepInv(size, before, events[|events| - 1]);
      StepMoves(size, before, events[|events| - 1], id);
    }
  }

  /** Accepting a hash again adds a new waiting entry and drops the old one from the waiting set; a bundle
      that is in flight keeps the old one. So bundling is at most once per accepted entry, not per hash. */
  lemma {:induction false} ResubmitWaits(size: int, s: State, h: string, now: int)
    requires Inv(size, s) && h in s.pool.entries
    ensures
      var r := Step(size, s, Accept(h, now));
      && r.tasks == s.tasks
      && Waiting(r) == Waiting(s) - {s.pool.entries[h]} + {|s.entries|}
      && r.entries[|s.entries|].hash == h && r.entries[|s.entries|].status == Pending
  {
    var r := Step(size, s, Accept(h, now));
    assert Bundled(r) == Bundled(s);
    forall id
      ensures id in Waiting(r) <==> id in Waiting(s) - {s.pool.entries[h]} + {|s.entries|}
    {
      if id in Waiting(s) && id != s.pool.entries[h] {
        var k :| k in s.pool.entries && s.pool.entries[k] == id;
        assert r.pool.entries[k] == id;
      }
      if id in Waiting(r) && id != |s.entries| {
        var k :| k in r.pool.entries && r.pool.entries[k] == id;
        assert s.pool.entries[k] == id && s.entries[id].hash == k;
      }
      assert r.pool.entries[h] == |s.entries|;
    }
  }

  // ------------------------------------------------------------------ first come, first bundled

  ghost predicate MonotoneClock(events: seq<Event>) {
    forall i, j :: 0 <= i < j < |events| && events[i].Accept? && events[j].Accept? ==> events[i].now <= events[j].now
  }

  /** Everything ever bundled is in receive order, and nothing waiting in the mempool is older than any of it. */
  ghost predicate Fifo(s: State) {
    && (forall i, j :: 0 <= i < j < |Bundled(s)| ==> ReceivedAt(s, Bundled(s)[i]) <= ReceivedAt(s, Bundled(s)[j]))
    && (forall x, y | x in Bundled(s) && y in s.pool.entries.Values && y !in Bundled(s) ::
          ReceivedAt(s, x) <= ReceivedAt(s, y))
  }

  lemma {:induction false} StartFifo(size: int, s: State, b: seq<nat>, r: State)
    requires Inv(size, s) && s.tasks == [] && Fresh(size, s, b) && Fifo(s)
    requires r == s.(inFlight := true, tasks := [Task(b, Preparing)], bundles := s.bundles + [b])
    requires forall i, j :: 0 <= i < j < |b| ==> ReceivedAt(s, b[i]) <= ReceivedAt(s, b[j])
    requires forall x, y | x in b && y in s.pool.Values() && IsPending(s, y) && y !in b ::
        ReceivedAt(s, x) <= ReceivedAt(s, y)
    ensures Fifo(r)
  {
    StartBundles(size, s, b);
    assert Bundled(r) == Bundled(s) + b;
    assert forall id: nat :: ReceivedAt(r, id) == ReceivedAt(s, id);
    forall y | y in s.pool.entries.Values
      ensures y in s.pool.Values()
      ensures y !in Bundled(s) ==> IsPending(s, y)
    {
      var h :| h in s.pool.entries && s.pool.entries[h] == y;
      ValuesMember(s.pool, y);
    }
    forall x | x in b
      ensures x in s.pool.entries.Values
    {
      ValuesMember(s.pool, x);
      var h :| h in s.pool.entries && s.pool.entries[h] == x;
    }
    forall i, j | 0 <= i < j < |Bundled(r)|
      ensures ReceivedAt(s, Bundled(r)[i]) <= ReceivedAt(s, Bundled(r)[j])
    {
      if i < |Bundled(s)| <= j {
        assert Bundled(r)[j] in b && Bundled(r)[i] in Bundled(s);
      }
    }
  }

  lemma {:induction false} AttemptFifo(size: int, s: State, force: bool)
    requires Inv(size, s) && Fifo(s)
    ensures Fifo(Attempt(size, s, force))
  {
    AttemptCases(size, s, force);
    if Attempt(size, s, force) != s {
      SelectionOldest(size, s);
      StartFifo(size, s, SelectPending(size, s), Attempt(size, s, force));
    }
  }

  lemma {:induction false} AcceptFifo(size: int, s: State, h: string, now: int)
    requires Inv(size, s) && Fifo(s)
    requires forall id | 0 <= id < |s.entries| :: s.entries[id].receivedAt <= now
    ensures Fifo(Step(size, s, Accept(h, now)))
  {
    var r := Step(size, s, Accept(h, now));
    assert Bundled(r) == Bundled(s);
    StepEntries(size, s, Accept(h, now));
    forall i | 0 <= i < |Bundled(s)|
      ensures ReceivedAt(r, Bundled(s)[i]) == ReceivedAt(s, Bundled(s)[i])
    {
      assert Bundled(s)[i] in Bundled(s);
    }
    forall y | y in r.pool.entries.Values
      ensures y == |s.entries| || y in s.pool.entries.Values
    {
    }
  }

  lemma {:induction false} StepFifo(size: int, s: State, e: Event)
    requires Inv(size, s) && Fifo(s)
    requires e.Accept? ==> forall id | 0 <= id < |s.entries| :: s.entries[id].receivedAt <= e.now
    ensures Fifo(Step(size, s, e))
  {
    match e
    case Tick => AttemptFifo(size, s, false);
    case Forced => AttemptFifo(size, s, true);
    case Accept(h, now) => AcceptFifo(size, s, h, now);
    case _ => OtherFifo(size, s, e);
  }

  lemma {:induction false} OtherFifo(size: int, s: State, e: Event)
    requires Inv(size, s) && Fifo(s) && !e.Accept? && !e.Tick? && !e.Forced?
    ensures Fifo(Step(size, s, e))
  {
    var r := Step(size, s, e);
    StepEntries(size, s, e);
    OtherStepsKeep(size, s, e);
    assert Bundled(r) == Bundled(s);
    assert forall id | id in Bundled(s) :: ReceivedAt(r, id) == ReceivedAt(s, id);
    forall y | y in s.pool.entries.Values
      ensures y < |s.entries|
    {
      var h :| h in s.pool.entries && s.pool.entries[h] == y;
    }
  }

  /** Every entry of a run was received when some accept of that run said. */
  lemma {:induction false} ReceivedByAccept(size: int, events: seq<Event>, id: nat)
    requires id < |Run(size, INIT, events).entries|
    ensures exists i :: 0 <= i < |events| && events[i].Accept?
              && events[i].now == Run(size, INIT, events).entries[id].receivedAt
  {
    var n := |events| - 1;
    var before := Run(size, INIT, events[..n]);
    StepEntries(size, before, events[n]);
    if id < |before.entries| {
      ReceivedByAccept(size, events[..n], id);
      var i :| 0 <= i < n && events[..n][i].Accept? && events[..n][i].now == before.entries[id].receivedAt;
      assert events[i].Accept?;
    } else {
      assert events[n].Accept?;
    }
  }

  /** Under a clock that does not go back, no entry is ever overtaken by one received later. */
  lemma {:induction false} RunFifo(size: int, events: seq<Event>)
    requires MonotoneClock(events)
    ensures Fifo(Run(size, INIT, events))
  {
    if events != [] {
      var n := |events| - 1;
      var before := Run(size, INIT, events[..n]);
      RunFifo(size, events[..n]);
      RunSafe(size, events[..n]);
      if events[n].Accept? {
        forall id | 0 <= id < |before.entries|
          ensures before.entries[id].receivedAt <= events[n].now
        {
          ReceivedByAccept(size, events[..n], id);
        }
      }
      StepFifo(size, before, events[n]);
    }
  }

  // ------------------------------------------------------------------ progress

  /** Mempool entries that no bundle has taken. */
  function Waiting(s: State): set<nat> {
    (set h | h in s.pool.entries :: s.pool.entries[h]) - Elements(Bundled(s))
  }

  lemma {:induction false} WaitingIsPending(s: State)
    requires PoolConsistent(s) && SettledOrPending(s) && s.tasks == []
    requires forall id | id in Bundled(s) :: id < |s.entries|
    ensures Waiting(s) == Elements(PendingIds(s))
    ensures |Waiting(s)| == |PendingIds(s)|
  {
    var p := id => IsPending(s, id);
    forall id
      ensures id in Waiting(s) <==> id in PendingIds(s)
    {
      FilterMember(p, s.pool.Values(), id);
      ValuesMember(s.pool, id);
    }
    assert Waiting(s) == Elements(PendingIds(s));
    PoolValuesDistinct(s);
    FilterDistinct(p, s.pool.Values());
    DistinctCardinality(PendingIds(s));
  }

  /** With the lock free, a timer tick starts a bundle exactly when the setting is at most 25 and at least
      that many entries (and one) wait; the bundle then has exactly that size. */
  lemma {:induction false} TickStarts(size: int, s: State)
    requires Inv(size, s) && !s.inFlight
    ensures
      var r := Step(size, s, Tick);
      && (r != s <==> size <= 25 && Max(1, size) <= |Waiting(s)|)
      && (r != s ==> r.inFlight && r.bundles == s.bundles + [SelectPending(size, s)]
                     && |SelectPending(size, s)| == Max(1, size))
  {
    WaitingIsPending(s);
    SelectionMembers(size, s);
  }

  /** The check after an accept counts finished entries too: it starts a bundle whenever anything waits and
      the mempool ever grew to the setting, so the bundle has the documented size only if enough wait. */
  lemma {:induction false} ForcedStarts(size: int, s: State)
    requires Inv(size, s) && !s.inFlight
    ensures
      var r := Step(size, s, Forced);
      && (r != s <==> 1 <= |Waiting(s)| && (size <= 1 || size <= s.pool.Size()))
      && (r != s ==> r.bundles == s.bundles + [SelectPending(size, s)]
                     && (|SelectPending(size, s)| == Max(1, size) <==> Max(1, size) <= |Waiting(s)| && size <= 25))
  {
    WaitingIsPending(s);
    SelectionMembers(size, s);
  }

  lemma {:induction false} StartConserves(size: int, s: State, b: seq<nat>)
    requires PoolConsistent(s) && BundlesConsistent(size, s) && SettledOrPending(s) && s.tasks == []
    requires Fresh(size, s, b)
    ensures
      var r := s.(inFlight := true, tasks := [Task(b, Preparing)], bundles := s.bundles + [b]);
      |Waiting(r)| + |Bundled(r)| == |Waiting(s)| + |Bundled(s)|
  {
    var r := s.(inFlight := true, tasks := [Task(b, Preparing)], bundles := s.bundles + [b]);
    StartBundles(size, s, b);
    assert Bundled(r) == Bundled(s) + b;
    DistinctCardinality(b);
    forall id | id in Elements(b)
      ensures id in Waiting(s)
    {
      ValuesMember(s.pool, id);
    }
    assert Waiting(r) == Waiting(s) - Elements(b);
  }

  lemma {:induction false} AttemptConserves(size: int, s: State, force: bool)
    requires Inv(size, s)
    ensures |Waiting(Attempt(size, s, force))| + |Bundled(Attempt(size, s, force))| == |Waiting(s)| + |Bundled(s)|
  {
    AttemptCases(size, s, force);
    if Attempt(size, s, force) != s {
      StartConserves(size, s, SelectPending(size, s));
    }
  }

  lemma {:induction false} OtherStepsKeep(size: int, s: State, e: Event)
    requires s.pool.Valid()
    requires !e.Accept? && !e.Tick? && !e.Forced?
    ensures Step(size, s, e).pool == s.pool && Step(size, s, e).bundles == s.bundles
  {
  }

  /** Without arrivals, what leaves the waiting set is exactly what the bundles took. */
  lemma {:induction false} RunConserves(size: int, s: State, events: seq<Event>)
    requires Inv(size, s)
    requires forall i | 0 <= i < |events| :: !events[i].Accept?
    ensures
      var r := Run(size, s, events);
      Inv(size, r) && |Waiting(r)| + |Bundled(r)| == |Waiting(s)| + |Bundled(s)|
  {
    if events != [] {
      var n := |events| - 1;
      var before := Run(size, s, events[..n]);
      RunConserves(size, s, events[..n]);
      StepInv(size, before, events[n]);
      StepConserves(size, before, events[n]);
    }
  }

  lemma {:induction false} StepConserves(size: int, s: State, e: Event)
    requires Inv(size, s) && !e.Accept?
    ensures |Waiting(Step(size, s, e))| + |Bundled(Step(size, s, e))| == |Waiting(s)| + |Bundled(s)|
  {
    match e
    case Tick => AttemptConserves(size, s, false);
    case Forced => AttemptConserves(size, s, true);
    case _ => OtherConserves(size, s, e);
  }

  lemma {:induction false} OtherConserves(size: int, s: State, e: Event)
    requires s.pool.Valid() && !e.Accept? && !e.Tick? && !e.Forced?
    ensures Waiting(Step(size, s, e)) == Waiting(s) && Bundled(Step(size, s, e)) == Bundled(s)
  {
    OtherStepsKeep(size, s, e);
  }

  predicate NoArrivals(events: seq<Event>) {
    forall i :: 0 <= i < |events| ==> !events[i].Accept?
  }

  lemma {:induction false} RunSnoc(size: int, s: State, es: seq<Event>, e: Event)
    requires s.pool.Valid()
    ensures Run(size, s, es + [e]) == Step(size, Run(size, s, es), e)
  {
    assert (es + [e])[..|es|] == es;
  }

  /** While the lock is held no step but an arrival touches the mempool or the bundles. */
  lemma {:induction false} HeldKeeps(size: int, s: State, e: Event)
    requires s.pool.Valid() && s.inFlight && !e.Accept?
    ensures Step(size, s, e).pool == s.pool && Step(size, s, e).bundles == s.bundles
  {
    if !e.Tick? && !e.Forced? {
      OtherStepsKeep(size, s, e);
    }
  }

  /** The lock is held after every proper prefix of these events. */
  predicate HeldUntilEnd(size: int, s: State, events: seq<Event>)
    requires s.pool.Valid()
  {
    forall n :: 0 <= n < |events| ==> Run(size, s, events[..n]).inFlight
  }

  lemma {:induction false} HeldPrefix(size: int, s: State, events: seq<Event>)
    requires s.pool.Valid() && events != [] && HeldUntilEnd(size, s, events)
    ensures HeldUntilEnd(size, s, events[..|events| - 1]) && Run(size, s, events[..|events| - 1]).inFlight
  {
    var n := |events| - 1;
    forall k | 0 <= k < n
      ensures Run(size, s, events[..n][..k]).inFlight
    {
      assert events[..n][..k] == events[..k];
    }
  }

  lemma {:induction false} HeldRunKeeps(size: int, s: State, events: seq<Event>)
    requires s.pool.Valid() && NoArrivals(events) && HeldUntilEnd(size, s, events)
    ensures Run(size, s, events).pool == s.pool && Run(size, s, events).bundles == s.bundles
    decreases |events|
  {
    if events != [] {
      var n := |events| - 1;
      HeldPrefix(size, s, events);
      HeldRunKeeps(size, s, events[..n]);
      HeldKeeps(size, Run(size, s, events[..n]), events[n]);
    }
  }

  /** However the bundle a tick starts ends, submitted or not, mined or failed, with whatever steps in between:
      once the lock is free again the waiting count is lower by exactly its size and all of it is settled. */
  lemma {:induction false} BundleLowers(size: int, s: State, events: seq<Event>)
    requires Inv(size, s) && !s.inFlight && Step(size, s, Tick) != s
    requires NoArrivals(events) && HeldUntilEnd(size, Step(size, s, Tick), events)
    requires !Run(size, Step(size, s, Tick), events).inFlight
    ensures
      var b, r := SelectPending(size, s), Run(size, Step(size, s, Tick), events);
      && |b| == Max(1, size) && r.bundles == s.bundles + [b]
      && |Waiting(r)| == |Waiting(s)| - |b|
      && forall id | id in b :: id < |r.entries| && (r.entries[id].status.Mined? || r.entries[id].status.Failed?)
  {
    var b, s1 := SelectPending(size, s), Step(size, s, Tick);
    TickStarts(size, s);
    StepInv(size, s, Tick);
    StepConserves(size, s, Tick);
    HeldRunKeeps(size, s1, events);
    RunConserves(size, s1, events);
    FlattenSnoc(s.bundles, b);
    BundleSettled(size, Run(size, s1, events), b);
  }

  lemma {:induction false} BundleSettled(size: int, r: State, b: seq<nat>)
    requires Inv(size, r) && !r.inFlight && b in r.bundles
    ensures forall id | id in b :: id < |r.entries| && (r.entries[id].status.Mined? || r.entries[id].status.Failed?)
  {
    forall id | id in b
      ensures id < |r.entries| && (r.entries[id].status.Mined? || r.entries[id].status.Failed?)
    {
      FlattenMember(r.bundles, b, id);
    }
  }

  lemma {:induction false} FlattenMember(bundles: seq<seq<nat>>, b: seq<nat>, id: nat)
    requires b in bundles && id in b
    ensures id in Flatten(bundles)
    decreases |bundles|
  {
    var n := |bundles| - 1;
    if b != bundles[n] {
      assert bundles == bundles[..n] + [bundles[n]];
      FlattenMember(bundles[..n], b, id);
    }
  }

  /** How many of a run's timer ticks find the lock free. */
  function FreeTicks(size: int, s: State, events: seq<Event>): nat
    requires s.pool.Valid()
  {
    if events == [] then 0
    else
      var before := events[..|events| - 1];
      FreeTicks(size, s, before) + if events[|events| - 1].Tick? && !Run(size, s, before).inFlight then 1 else 0
  }

  /** A step without arrival never adds to the waiting count; a tick that finds the lock free takes the setting off
      it. */
  lemma {:induction false} StepLowers(size: int, s: State, e: Event)
    requires Inv(size, s) && !e.Accept? && 1 <= size <= 25
    ensures |Waiting(Step(size, s, e))| <= |Waiting(s)|
    ensures e.Tick? && !s.inFlight && size <= |Waiting(s)| ==> |Waiting(Step(size, s, e))| == |Waiting(s)| - size
  {
    StepConserves(size, s, e);
    BundledGrows(size, s, e);
    if e.Tick? && !s.inFlight {
      TickStarts(size, s);
      FlattenSnoc(s.bundles, SelectPending(size, s));
    }
  }

  lemma {:induction false} BundledGrows(size: int, s: State, e: Event)
    requires Inv(size, s) && !e.Accept?
    ensures |Bundled(s)| <= |Bundled(Step(size, s, e))|
  {
    if e.Tick? || e.Forced? {
      AttemptCases(size, s, e.Forced?);
      FlattenSnoc(s.bundles, SelectPending(size, s));
    } else {
      OtherStepsKeep(size, s, e);
    }
  }

  /** The entries that a run's free ticks ask for. */
  function Asked(size: int, s: State, events: seq<Event>): int
    requires s.pool.Valid()
  {
    if events == [] then 0
    else
      var before := events[..|events| - 1];
      Asked(size, s, before) + if events[|events| - 1].Tick? && !Run(size, s, before).inFlight then size else 0
  }

  lemma {:induction false} AskedByTicks(size: int, s: State, events: seq<Event>)
    requires s.pool.Valid()
    ensures Asked(size, s, events) == FreeTicks(size, s, events) * size
    decreases |events|
  {
    if events != [] {
      var before := events[..|events| - 1];
      AskedByTicks(size, s, before);
      assert (FreeTicks(size, s, before) + 1) * size == FreeTicks(size, s, before) * size + size;
    }
  }

  /** After any run without arrivals either fewer than the setting wait, or every free tick took a full bundle. */
  lemma {:induction false} RunLowers(size: int, s: State, events: seq<Event>)
    requires Inv(size, s) && NoArrivals(events) && 1 <= size <= 25
    ensures Inv(size, Run(size, s, events))
    ensures |Waiting(Run(size, s, events))| < size ||
        |Waiting(Run(size, s, events))| <= |Waiting(s)| - Asked(size, s, events)
    decreases |events|
  {
    if events != [] {
      var n := |events| - 1;
      RunLowers(size, s, events[..n]);
      StepInv(size, Run(size, s, events[..n]), events[n]);
      StepLowers(size, Run(size, s, events[..n]), events[n]);
    }
  }

  /** Without arrivals, and whatever the schedule, failures and interleaved steps: once enough ticks have found the
      lock free, fewer than the setting wait. */
  lemma {:induction false} TicksDrain(size: int, s: State, events: seq<Event>)
    requires Inv(size, s) && NoArrivals(events) && 1 <= size <= 25
    requires FreeTicks(size, s, events) * size > |Waiting(s)| - size
    ensures |Waiting(Run(size, s, events))| < size
  {
    AskedByTicks(size, s, events);
    RunLowers(size, s, events);
  }
}
