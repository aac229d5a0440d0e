/** The indexer's block cursor as a state machine over sync calls that may fail at any point. */
module IndexerCursor {
  import opened Wrappers
  import opened Sequences
  import opened ChainRanges

  datatype Config = Config(lookbackBlocks: int, maxBlockRange: int)

  /** How one block range ends: done, failed before anything was stored, or stored while writing the state file
      failed. */
  datatype Outcome = Done | RangeFails | WriteFails

  /** The in-memory cursor, the state file, and the ranges stored so far. */
  datatype Cursor = Cursor(last: int, saved: Option<int>, done: seq<Range>)

  /** One sync call: the head it reads, or None when that fails, and how each range ends. */
  datatype Call = Call(latest: Option<nat>, outcome: Range -> Outcome)

  /** What happens to the indexer: a sync call, or a restart that can or cannot use its state file. */
  datatype Event = SyncCall(call: Call) | Restart(stateRead: bool)

  /** A first start with the state file found then. */
  function Starting(saved: Option<nat>): Cursor {
    Cursor(saved.GetOr(0), saved, [])
  }

  function StartBlock(cfg: Config, last: int, latest: nat): (r: int)
    ensures r >= 0
  {
    if last == 0 then Max(0, latest - Max(0, cfg.lookbackBlocks)) else Max(0, last + 1)
  }

  function NextRange(cfg: Config, from: int, latest: nat): Range {
    Range(from, Min(latest, from + Max(1, cfg.maxBlockRange) - 1))
  }

  function SyncFrom(cfg: Config, c: Cursor, from: int, latest: nat, outcome: Range -> Outcome): Cursor
    decreases latest + 1 - from
  {
    if from > latest then c
    else
      var r := NextRange(cfg, from, latest);
      match outcome(r)
      case RangeFails => c
      case WriteFails => Cursor(r.to, c.saved, c.done + [r])
      case Done => SyncFrom(cfg, Cursor(r.to, Some(r.to), c.done + [r]), r.to + 1, latest, outcome)
  }

  function Sync(cfg: Config, c: Cursor, call: Call): Cursor {
    if call.latest.None? then c
    else SyncFrom(cfg, c, StartBlock(cfg, c.last, call.latest.value), call.latest.value, call.outcome)
  }

  function Step(cfg: Config, c: Cursor, e: Event): Cursor {
    match e
    case SyncCall(call) => Sync(cfg, c, call)
    case Restart(stateRead) => c.(last := if stateRead then c.saved.GetOr(0) else 0)
  }

  function Run(cfg: Config, c: Cursor, events: seq<Event>): Cursor {
    if events == [] then c else Step(cfg, Run(cfg, c, events[..|events| - 1]), events[|events| - 1])
  }

  predicate NoRestarts(events: seq<Event>) {
    forall i :: 0 <= i < |events| ==> events[i].SyncCall?
  }

  // ------------------------------------------------------------------ consecutive ranges

  ghost predicate Sized(cfg: Config, rs: seq<Range>) {
    forall i :: 0 <= i < |rs| ==> 0 <= rs[i].from <= rs[i].to < rs[i].from + Max(1, cfg.maxBlockRange)
  }

  ghost predicate Consecutive(rs: seq<Range>) {
    forall i :: 0 <= i < |rs| - 1 ==> rs[i + 1].from == rs[i].to + 1
  }

  /** The first z ranges are block 0 alone; from there the ranges are consecutive, they follow the starting cursor if
      there was one, and they end at the cursor. */
  ghost predicate Tracked(cfg: Config, base: int, c: Cursor, z: nat) {
    && 0 <= base && z <= |c.done| && Sized(cfg, c.done)
    && (forall i :: 0 <= i < z ==> c.done[i] == Range(0, 0))
    && (forall i :: z <= i < |c.done| - 1 ==> c.done[i + 1].from == c.done[i].to + 1)
    && (base > 0 ==> z == 0 && (c.done != [] ==> c.done[0].from == base + 1))
    && (z < |c.done| ==> c.last == c.done[|c.done| - 1].to > 0)
    && (z == |c.done| ==> c.last == if c.done == [] then base else 0)
  }

  lemma {:induction false} TrackedStep(cfg: Config, base: int, c: Cursor, z: nat, r: Range, saved: Option<int>)
    returns (z': nat)
    requires Tracked(cfg, base, c, z)
    requires 0 <= r.from <= r.to < r.from + Max(1, cfg.maxBlockRange)
    requires c.last > 0 ==> r.from == c.last + 1
    ensures Tracked(cfg, base, Cursor(r.to, saved, c.done + [r]), z')
    ensures z' == if r.to == 0 then z + 1 else z
  {
    z' := if r.to == 0 then z + 1 else z;
    var d := c.done + [r];
    assert d[|c.done|] == r;
    assert forall i | 0 <= i < |c.done| :: d[i] == c.done[i];
  }

  lemma {:induction false} SyncFromTracked(cfg: Config, base: int, c: Cursor, from: int, latest: nat,
      outcome: Range -> Outcome, z: nat)
    returns (z': nat)
    requires Tracked(cfg, base, c, z) && from >= 0
    requires c.last > 0 ==> from == c.last + 1
    ensures Tracked(cfg, base, SyncFrom(cfg, c, from, latest, outcome), z')
    decreases latest + 1 - from
  {
    z' := z;
    if from <= latest {
      var r := NextRange(cfg, from, latest);
      if outcome(r) == Done {
        z' := TrackedStep(cfg, base, c, z, r, Some(r.to));
        z' := SyncFromTracked(cfg, base, Cursor(r.to, Some(r.to), c.done + [r]), r.to + 1, latest, outcome, z');
      } else if outcome(r) == WriteFails {
        z' := TrackedStep(cfg, base, c, z, r, c.saved);
      }
    }
  }

  /** From any state file and over any run of sync calls with any heads and failures, the stored ranges from the point
      the cursor is positive are consecutive, none is longer than the limit, and the last one ends at the cursor. */
  lemma {:induction false} RunTracked(cfg: Config, saved: Option<nat>, events: seq<Event>) returns (z: nat)
    requires NoRestarts(events)
    ensures Tracked(cfg, saved.GetOr(0), Run(cfg, Starting(saved), events), z)
    decreases |events|
  {
    if events == [] {
      z := 0;
    } else {
      var n := |events| - 1;
      var c := Run(cfg, Starting(saved), events[..n]);
      z := RunTracked(cfg, saved, events[..n]);
      var call := events[n].call;
      if call.latest.Some? {
        z := SyncFromTracked(cfg, saved.GetOr(0), c, StartBlock(cfg, c.last, call.latest.value), call.latest.value,
            call.outcome, z);
      }
    }
  }

  /** Consecutive ranges hold every block from the first to the last of them, each in exactly one. */
  lemma {:induction false} ConsecutiveCover(cfg: Config, rs: seq<Range>, block: nat)
    requires rs != [] && Sized(cfg, rs) && Consecutive(rs)
    ensures rs[0].from <= block <= rs[|rs| - 1].to <==> InAny(rs, block)
    ensures forall i, j | 0 <= i < |rs| && 0 <= j < |rs| && rs[i].Has(block) && rs[j].Has(block) :: i == j
    ensures forall i :: 0 <= i < |rs| ==> rs[0].from <= rs[i].from && rs[i].to <= rs[|rs| - 1].to
    decreases |rs|
  {
    var n := |rs| - 1;
    if n > 0 {
      ConsecutiveCover(cfg, rs[..n], block);
      assert rs[..n][n - 1].to + 1 == rs[n].from;
      InAnySnoc(rs, block);
      forall i | 0 <= i < n
        ensures rs[0].from <= rs[i].from && rs[i].to < rs[n].from
      {
        assert rs[..n][i] == rs[i];
      }
      forall i, j | 0 <= i < |rs| && 0 <= j < |rs| && rs[i].Has(block) && rs[j].Has(block)
        ensures i == j
      {
        if i < n && j < n {
          assert rs[..n][i].Has(block) && rs[..n][j].Has(block);
        }
      }
    } else {
      assert InAny(rs, block) <==> rs[0].Has(block);
    }
  }

  // ------------------------------------------------------------------ holes

  /** The highest block known to be stored: by the state file found at the start, or by a range. */
  function Top(base: int, done: seq<Range>): int {
    if done == [] then base else Max(Top(base, done[..|done| - 1]), done[|done| - 1].to)
  }

  /** The first block of the stored ones: after the state file found at the start, or the first range's. */
  function Low(base: int, done: seq<Range>): int {
    if base > 0 || done == [] then base + 1 else done[0].from
  }

  /** No block between the first and the highest stored one is missing. */
  ghost predicate HoleFree(base: int, done: seq<Range>) {
    done != [] ==> forall block: nat :: Low(base, done) <= block <= Top(base, done) ==> InAny(done, block)
  }

  /** A call that finds the cursor at zero although blocks are stored, and starts by lookback beyond the block after
      them. */
  predicate LateStart(cfg: Config, base: int, c: Cursor, e: Event) {
    && e.SyncCall? && e.call.latest.Some? && c.last == 0
    && (base > 0 || c.done != [])
    && e.call.latest.value - Max(0, cfg.lookbackBlocks) > Top(base, c.done) + 1
    && e.call.outcome(NextRange(cfg, StartBlock(cfg, 0, e.call.latest.value), e.call.latest.value)) != RangeFails
  }

  /** Neither the cursor nor the state file is ahead of what is stored. */
  ghost predicate Bounded(base: int, c: Cursor) {
    && 0 <= base && 0 <= c.last <= Top(base, c.done) && 0 <= c.saved.GetOr(0) <= Top(base, c.done)
    && (forall i :: 0 <= i < |c.done| ==> 0 <= c.done[i].from <= c.done[i].to)
  }

  lemma {:induction false} TopSnoc(base: int, done: seq<Range>, r: Range)
    ensures Top(base, done + [r]) == Max(Top(base, done), r.to)
  {
    assert (done + [r])[..|done|] == done;
  }

  lemma {:induction false} TopBounds(base: int, done: seq<Range>)
    ensures base <= Top(base, done)
    ensures forall i :: 0 <= i < |done| ==> done[i].to <= Top(base, done)
    decreases |done|
  {
    if done != [] {
      TopBounds(base, done[..|done| - 1]);
      assert forall i :: 0 <= i < |done| - 1 ==> done[..|done| - 1][i] == done[i];
    }
  }

  lemma {:induction false} AppendBounded(base: int, c: Cursor, r: Range, saved: Option<int>)
    requires Bounded(base, c) && 0 <= r.from <= r.to && (saved == c.saved || saved == Some(r.to))
    ensures Bounded(base, Cursor(r.to, saved, c.done + [r]))
  {
    TopSnoc(base, c.done, r);
  }

  lemma {:induction false} InAnyAppend(done: seq<Range>, r: Range, block: nat)
    ensures InAny(done + [r], block) <==> InAny(done, block) || r.Has(block)
  {
    InAnySnoc(done + [r], block);
    assert (done + [r])[..|done|] == done;
  }

  /** A range that starts no later than the block after the highest one leaves no hole. */
  lemma {:induction false} AppendHoleFree(base: int, done: seq<Range>, r: Range)
    requires 0 <= base && HoleFree(base, done) && 0 <= r.from <= r.to
    requires base > 0 || done != [] ==> r.from <= Top(base, done) + 1
    ensures HoleFree(base, done + [r])
  {
    TopSnoc(base, done, r);
    forall block: nat | Low(base, done + [r]) <= block <= Top(base, done + [r])
      ensures InAny(done + [r], block)
    {
      InAnyAppend(done, r, block);
    }
  }

  lemma {:induction false} SyncFromHoleFree(cfg: Config, base: int, c: Cursor, from: int, latest: nat,
      outcome: Range -> Outcome)
    requires Bounded(base, c) && HoleFree(base, c.done) && 0 <= from
    requires base > 0 || c.done != [] ==> from <= Top(base, c.done) + 1
    ensures HoleFree(base, SyncFrom(cfg, c, from, latest, outcome).done)
    decreases latest + 1 - from
  {
    if from <= latest {
      var r := NextRange(cfg, from, latest);
      if outcome(r) != RangeFails {
        AppendHoleFree(base, c.done, r);
        AppendBounded(base, c, r, if outcome(r) == Done then Some(r.to) else c.saved);
        TopSnoc(base, c.done, r);
        if outcome(r) == Done {
          SyncFromHoleFree(cfg, base, Cursor(r.to, Some(r.to), c.done + [r]), r.to + 1, latest, outcome);
        }
      }
    }
  }

  lemma {:induction false} SyncFromBounded(cfg: Config, base: int, c: Cursor, from: int, latest: nat,
      outcome: Range -> Outcome)
    requires Bounded(base, c) && 0 <= from
    ensures Bounded(base, SyncFrom(cfg, c, from, latest, outcome))
    decreases latest + 1 - from
  {
    if from <= latest {
      var r := NextRange(cfg, from, latest);
      if outcome(r) != RangeFails {
        AppendBounded(base, c, r, if outcome(r) == Done then Some(r.to) else c.saved);
        if outcome(r) == Done {
          SyncFromBounded(cfg, base, Cursor(r.to, Some(r.to), c.done + [r]), r.to + 1, latest, outcome);
        }
      }
    }
  }

  lemma {:induction false} StepBounded(cfg: Config, base: int, c: Cursor, e: Event)
    requires Bounded(base, c)
    ensures Bounded(base, Step(cfg, c, e))
  {
    if e.SyncCall? && e.call.latest.Some? {
      SyncFromBounded(cfg, base, c, StartBlock(cfg, c.last, e.call.latest.value), e.call.latest.value, e.call.outcome);
    }
  }

  /** Over every run of calls and restarts. */
  lemma {:induction false} RunBounded(cfg: Config, saved: Option<nat>, events: seq<Event>)
    ensures Bounded(saved.GetOr(0), Run(cfg, Starting(saved), events))
    decreases |events|
  {
    if events != [] {
      RunBounded(cfg, saved, events[..|events| - 1]);
      StepBounded(cfg, saved.GetOr(0), Run(cfg, Starting(saved), events[..|events| - 1]), events[|events| - 1]);
    }
  }

  lemma {:induction false} StepHoleFree(cfg: Config, base: int, c: Cursor, e: Event)
    requires Bounded(base, c) && HoleFree(base, c.done) && !LateStart(cfg, base, c, e)
    ensures HoleFree(base, Step(cfg, c, e).done)
  {
    if e.SyncCall? && e.call.latest.Some? {
      var latest := e.call.latest.value;
      var from := StartBlock(cfg, c.last, latest);
      if from <= latest && e.call.outcome(NextRange(cfg, from, latest)) != RangeFails {
        SyncFromHoleFree(cfg, base, c, from, latest, e.call.outcome);
      }
    }
  }

  /** What a call stores is added behind, and starts no earlier than the call. */
  lemma {:induction false} SyncFromAbove(cfg: Config, c: Cursor, from: int, latest: nat, outcome: Range -> Outcome)
    ensures c.done <= SyncFrom(cfg, c, from, latest, outcome).done
    ensures forall i :: |c.done| <= i < |SyncFrom(cfg, c, from, latest, outcome).done|
                    ==> from <= SyncFrom(cfg, c, from, latest, outcome).done[i].from
    decreases latest + 1 - from
  {
    if from <= latest {
      var r := NextRange(cfg, from, latest);
      if outcome(r) == Done {
        SyncFromAbove(cfg, Cursor(r.to, Some(r.to), c.done + [r]), r.to + 1, latest, outcome);
      }
    }
  }

  /** A late start leaves out the block after the highest stored one. */
  lemma {:induction false} LateLeavesHole(cfg: Config, base: int, c: Cursor, e: Event)
    requires Bounded(base, c) && LateStart(cfg, base, c, e)
    ensures !HoleFree(base, Step(cfg, c, e).done)
  {
    var latest := e.call.latest.value;
    var from := StartBlock(cfg, 0, latest);
    var r := NextRange(cfg, from, latest);
    var done := Step(cfg, c, e).done;
    var missing: nat := Top(base, c.done) + 1;
    SyncFromAbove(cfg, c, from, latest, e.call.outcome);
    LateStores(cfg, c, from, latest, e.call.outcome);
    TopBounds(base, c.done);
    TopBounds(base, done);
    assert done[|c.done|].from >= from;
    forall i | 0 <= i < |done|
      ensures !done[i].Has(missing)
    {
      if i < |c.done| {
        assert done[i] == c.done[i];
      }
    }
    assert !InAny(done, missing);
  }

  lemma {:induction false} LateStores(cfg: Config, c: Cursor, from: int, latest: nat, outcome: Range -> Outcome)
    requires from <= latest && outcome(NextRange(cfg, from, latest)) != RangeFails
    ensures |SyncFrom(cfg, c, from, latest, outcome).done| > |c.done|
    ensures SyncFrom(cfg, c, from, latest, outcome).done[|c.done|] == NextRange(cfg, from, latest)
  {
    var r := NextRange(cfg, from, latest);
    if outcome(r) == Done {
      SyncFromAbove(cfg, Cursor(r.to, Some(r.to), c.done + [r]), r.to + 1, latest, outcome);
    }
  }

  ghost predicate NoLateStart(cfg: Config, saved: Option<nat>, events: seq<Event>) {
    forall n :: 0 <= n < |events| ==> !LateStart(cfg, saved.GetOr(0), Run(cfg, Starting(saved), events[..n]), events[n])
  }

  lemma {:induction false} NoLatePrefix(cfg: Config, saved: Option<nat>, events: seq<Event>, k: nat)
    requires NoLateStart(cfg, saved, events) && k <= |events|
    ensures NoLateStart(cfg, saved, events[..k])
  {
    forall n | 0 <= n < k
      ensures !LateStart(cfg, saved.GetOr(0), Run(cfg, Starting(saved), events[..k][..n]), events[..k][n])
    {
      assert events[..k][..n] == events[..n];
    }
  }

  lemma {:induction false} RunHoleFree(cfg: Config, saved: Option<nat>, events: seq<Event>)
    requires NoLateStart(cfg, saved, events)
    ensures HoleFree(saved.GetOr(0), Run(cfg, Starting(saved), events).done)
    decreases |events|
  {
    if events != [] {
      var n := |events| - 1;
      NoLatePrefix(cfg, saved, events, n);
      RunHoleFree(cfg, saved, events[..n]);
      RunBounded(cfg, saved, events[..n]);
      StepHoleFree(cfg, saved.GetOr(0), Run(cfg, Starting(saved), events[..n]), events[n]);
    }
  }

  /** Over every run of calls and restarts from any state file, with any heads and failures: at no moment is a block
      below the highest stored one missing if and only if no call starts late. */
  lemma {:induction false} HoleFreeIff(cfg: Config, saved: Option<nat>, events: seq<Event>)
    ensures (forall n :: 0 <= n <= |events| ==> HoleFree(saved.GetOr(0), Run(cfg, Starting(saved), events[..n]).done))
      <==> NoLateStart(cfg, saved, events)
  {
    if NoLateStart(cfg, saved, events) {
      forall n | 0 <= n <= |events|
        ensures HoleFree(saved.GetOr(0), Run(cfg, Starting(saved), events[..n]).done)
      {
        NoLatePrefix(cfg, saved, events, n);
        RunHoleFree(cfg, saved, events[..n]);
      }
    } else {
      var n :| 0 <= n < |events| && LateStart(cfg, saved.GetOr(0), Run(cfg, Starting(saved), events[..n]), events[n]);
      RunBounded(cfg, saved, events[..n]);
      LateLeavesHole(cfg, saved.GetOr(0), Run(cfg, Starting(saved), events[..n]), events[n]);
      assert events[..n + 1][..n] == events[..n];
      assert !HoleFree(saved.GetOr(0), Run(cfg, Starting(saved), events[..n + 1]).done);
    }
  }

  /** Whatever the crashes and restarts: without late starts, every block from the first stored one up to what the
      state file holds is stored, and a restart that reads a positive state file goes on right behind it, never late. */
  lemma {:induction false} SavedIsStored(cfg: Config, saved: Option<nat>, events: seq<Event>, next: Event)
    requires NoLateStart(cfg, saved, events)
    ensures
      var c, base := Run(cfg, Starting(saved), events), saved.GetOr(0);
      && (c.done != [] ==> forall block: nat :: Low(base, c.done) <= block <= c.saved.GetOr(0) ==> InAny(c.done, block))
      && (c.saved.GetOr(0) > 0 ==>
            && !LateStart(cfg, base, Step(cfg, c, Restart(true)), next)
            && forall latest :: StartBlock(cfg, Step(cfg, c, Restart(true)).last, latest) == c.saved.value + 1)
  {
    RunHoleFree(cfg, saved, events);
    RunBounded(cfg, saved, events);
  }

  /** Without restarts and late starts the stored blocks are exactly those from the first one up to the cursor. */
  lemma {:induction false} StoredUpToCursor(cfg: Config, saved: Option<nat>, events: seq<Event>, block: nat)
    requires NoRestarts(events) && NoLateStart(cfg, saved, events)
    requires Run(cfg, Starting(saved), events).done != []
    ensures
      var c := Run(cfg, Starting(saved), events);
      InAny(c.done, block) <==> Low(saved.GetOr(0), c.done) <= block <= c.last
  {
    var c, base := Run(cfg, Starting(saved), events), saved.GetOr(0);
    var z := RunTracked(cfg, saved, events);
    RunHoleFree(cfg, saved, events);
    RunBounded(cfg, saved, events);
    TopBounds(base, c.done);
    TrackedWithin(cfg, base, c, z);
  }

  lemma {:induction false} TrackedWithin(cfg: Config, base: int, c: Cursor, z: nat)
    requires Tracked(cfg, base, c, z) && c.done != []
    ensures forall i :: 0 <= i < |c.done| ==> Low(base, c.done) <= c.done[i].from && c.done[i].to <= c.last
  {
    var tail := c.done[z..];
    if tail != [] {
      ConsecutiveCover(cfg, tail, 0);
      forall i | 0 <= i < |c.done|
        ensures Low(base, c.done) <= c.done[i].from && c.done[i].to <= c.last
      {
        if z <= i {
          assert tail[i - z] == c.done[i];
        }
      }
    }
  }

  lemma {:induction false} AllSucceed(cfg: Config, from: int, latest: nat, outcome: Range -> Outcome)
    requires forall r :: outcome(r) == Done
    ensures Succeeds(cfg, from, latest, outcome)
    decreases latest + 1 - from
  {
    if from <= latest {
      AllSucceed(cfg, NextRange(cfg, from, latest).to + 1, latest, outcome);
    }
  }

  /** Late starts do happen: block 0 is stored and the next head read is more than the lookback plus one ahead. */
  lemma {:induction false} ZeroCursorSkips(cfg: Config, latest: nat)
    requires latest > Max(0, cfg.lookbackBlocks) + 1
    ensures
      var events := [SyncCall(Call(Some(0), r => Done)), SyncCall(Call(Some(latest), r => Done))];
      Run(cfg, Starting(None), events).last == latest && !InAny(Run(cfg, Starting(None), events).done, 1)
  {
    var first, second := SyncCall(Call(Some(0), r => Done)), SyncCall(Call(Some(latest), r => Done));
    var c := Cursor(0, Some(0), [Range(0, 0)]);
    assert [first, second][..1] == [first];
    assert [first][..0] == [];
    assert Run(cfg, Starting(None), [first]) == c;
    var from := StartBlock(cfg, 0, latest);
    SyncFromAbove(cfg, c, from, latest, second.call.outcome);
    AllSucceed(cfg, from, latest, second.call.outcome);
    SyncFromReaches(cfg, c, from, latest, second.call.outcome);
    var done := SyncFrom(cfg, c, from, latest, second.call.outcome).done;
    forall i | 0 <= i < |done|
      ensures !done[i].Has(1)
    {
      if i == 0 {
        assert done[0] == c.done[0];
      }
    }
  }

  // ------------------------------------------------------------------ progress

  /** None of the ranges that a call tries fails. */
  predicate Succeeds(cfg: Config, from: int, latest: nat, outcome: Range -> Outcome)
    decreases latest + 1 - from
  {
    from <= latest ==>
      var r := NextRange(cfg, from, latest);
      outcome(r) == Done && Succeeds(cfg, r.to + 1, latest, outcome)
  }

  lemma {:induction false} SyncFromReaches(cfg: Config, c: Cursor, from: int, latest: nat, outcome: Range -> Outcome)
    requires 0 <= from <= latest
    ensures Succeeds(cfg, from, latest, outcome) ==>
      SyncFrom(cfg, c, from, latest, outcome).saved == Some(latest) &&
          SyncFrom(cfg, c, from, latest, outcome).last == latest
    ensures c.saved != Some(latest) && SyncFrom(cfg, c, from, latest, outcome).saved == Some(latest) ==>
      Succeeds(cfg, from, latest, outcome)
    decreases latest + 1 - from
  {
    var r := NextRange(cfg, from, latest);
    if r.to < latest && outcome(r) == Done {
      SyncFromReaches(cfg, Cursor(r.to, Some(r.to), c.done + [r]), r.to + 1, latest, outcome);
    }
  }

  /** A call whose head is ahead of the cursor ends with the cursor, in memory and on disk, at that head when none of
      the ranges it tries fails, and only then unless the state file held that head before. */
  lemma {:induction false} SyncReachesHead(cfg: Config, c: Cursor, call: Call)
    requires call.latest.Some?
    requires 0 <= c.last < call.latest.value || c.last == 0
    ensures
      var r, latest := Sync(cfg, c, call), call.latest.value;
      var succeeds := Succeeds(cfg, StartBlock(cfg, c.last, latest), latest, call.outcome);
      && (succeeds ==> r.last == latest && r.saved == Some(latest))
      && (c.saved != Some(latest) && r.last == latest && r.saved == Some(latest) ==> succeeds)
  {
    var latest := call.latest.value;
    SyncFromReaches(cfg, c, StartBlock(cfg, c.last, latest), latest, call.outcome);
  }

  /** A call never moves the cursor back, and a head that is not ahead of a positive cursor changes nothing. */
  lemma {:induction false} SyncForward(cfg: Config, c: Cursor, call: Call)
    requires c.last >= 0
    ensures c.last <= Sync(cfg, c, call).last
    ensures c.last > 0 && (call.latest.None? || call.latest.value <= c.last) ==> Sync(cfg, c, call) == c
  {
    if call.latest.Some? {
      var latest := call.latest.value;
      SyncFromForward(cfg, c, StartBlock(cfg, c.last, latest), latest, call.outcome);
    }
  }

  lemma {:induction false} SyncFromForward(cfg: Config, c: Cursor, from: int, latest: nat, outcome: Range -> Outcome)
    requires from >= c.last >= 0
    ensures c.last <= SyncFrom(cfg, c, from, latest, outcome).last
    decreases latest + 1 - from
  {
    if from <= latest {
      var r := NextRange(cfg, from, latest);
      if outcome(r) == Done {
        SyncFromForward(cfg, Cursor(r.to, Some(r.to), c.done + [r]), r.to + 1, latest, outcome);
      }
    }
  }
}
