/** The indexer with its fields: a cursor that advances range by range and feeds the analytics store. */
module OnChainIndexer {
  import opened Wrappers
  import opened Sequences
  import opened JsMaps
  import opened Text
  import opened OpRecords
  import opened OpJoin
  import opened ChainRanges
  import opened IndexerCursor
  import opened OpStore
  import opened NdjsonDaily
  import R = Restart

  datatype StateFile = StateFile(chainId: int, entryPoint: string, paymaster: string, lastProcessedBlock: int)

  datatype Deployment = Deployment(chainId: int, entryPoint: string, paymaster: string)

  predicate SameDeployment(s: StateFile, d: Deployment) {
    s.chainId == d.chainId && ToLower(s.entryPoint) == ToLower(d.entryPoint) &&
        ToLower(s.paymaster) == ToLower(d.paymaster)
  }

  /** The block a state file gives: that of the same deployment, if it has one. */
  function SavedBlock(state: Option<StateFile>, d: Deployment): Option<int> {
    if state.Some? && SameDeployment(state.value, d) then Some(state.value.lastProcessedBlock) else None
  }

  function Ranges(seen: seq<Read>): (r: seq<Range>)
    ensures |r| == |seen|
  {
    Map((rd: Read) => rd.range, seen)
  }

  /** The last reason per operation, built log by log. */
  method ReadReverts(ls: seq<RevertLog>) returns (revertMap: map<string, string>)
    ensures revertMap == RevertMap(ls)
  {
    revertMap := map[];
    for i := 0 to |ls|
      invariant revertMap == RevertMap(ls[..i])
    {
      assert ls[..i + 1][..i] == ls[..i];
      revertMap := revertMap[ToLower(ls[i].userOpHash) := ls[i].reason];
    }
    assert ls[..|ls|] == ls;
  }

  method ReadEntries(c: Chain, revertMap: map<string, string>, ls: seq<EntryLog>, found: Lookups)
    returns (es: seq<EntryPointEvent>)
    ensures es == EntryEvents(c, revertMap, Filter(found.entry, ls))
  {
    es := [];
    for i := 0 to |ls|
      invariant es == EntryEvents(c, revertMap, Filter(found.entry, ls[..i]))
    {
      assert ls[..i + 1] == ls[..i] + [ls[i]];
      FilterSnoc(found.entry, ls[..i], ls[i]);
      if found.entry(ls[i]) {
        es := es + [EntryEvent(c, revertMap, ls[i])];
      }
    }
    assert ls[..|ls|] == ls;
  }

  method ReadPosts(c: Chain, ls: seq<PostLog>, found: Lookups) returns (ps: seq<PaymasterEvent>)
    ensures ps == PostEvents(c, Filter(found.post, ls))
  {
    ps := [];
    for i := 0 to |ls|
      invariant ps == PostEvents(c, Filter(found.post, ls[..i]))
    {
      assert ls[..i + 1] == ls[..i] + [ls[i]];
      FilterSnoc(found.post, ls[..i], ls[i]);
      if found.post(ls[i]) {
        ps := ps + [PostEvent(c, ls[i])];
      }
    }
    assert ls[..|ls|] == ls;
  }

  // ------------------------------------------------------------------ what the fields stand for

  /** The store after a restored batch and some reads, bounded at every step. */
  function Followed(max: nat, chain: Chain, restored: Batch, seen: seq<Read>): (r: Index)
    ensures r.Valid()
    decreases |seen|
  {
    if seen == [] then IngestBounded(max, Empty(), restored)
    else
      var rd := seen[|seen| - 1];
      IngestBounded(max, Followed(max, chain, restored, seen[..|seen| - 1]), RangeBatch(chain, rd.range, rd.found))
  }

  /** What some reads append to the two daily logs. */
  function Logged(chain: Chain, seen: seq<Read>): Batch
    decreases |seen|
  {
    if seen == [] then Batch([], [])
    else
      var before, rd := Logged(chain, seen[..|seen| - 1]), seen[|seen| - 1];
      var b := RangeBatch(chain, rd.range, rd.found);
      Batch(before.entries + b.entries, before.posts + b.posts)
  }

  lemma {:induction false} FollowedSnoc(max: nat, chain: Chain, restored: Batch, seen: seq<Read>, rd: Read)
    ensures Followed(max, chain, restored, seen + [rd])
      == IngestBounded(max, Followed(max, chain, restored, seen), RangeBatch(chain, rd.range, rd.found))
  {
    assert (seen + [rd])[..|seen|] == seen;
  }

  lemma {:induction false} LoggedSnoc(chain: Chain, seen: seq<Read>, rd: Read)
    ensures Logged(chain, seen + [rd]).entries == Logged(chain, seen).entries +
        RangeBatch(chain, rd.range, rd.found).entries
    ensures Logged(chain, seen + [rd]).posts == Logged(chain, seen).posts + RangeBatch(chain, rd.range, rd.found).posts
  {
    assert (seen + [rd])[..|seen|] == seen;
  }

  lemma {:induction false} AppendAssoc<T>(a: seq<T>, b: seq<T>, x: T)
    ensures a + (b + [x]) == (a + b) + [x]
  {
  }

  lemma {:induction false} RangesSnoc(seen: seq<Read>, rd: Read)
    ensures Ranges(seen + [rd]) == Ranges(seen) + [rd.range]
  {
  }

  lemma {:induction false} NothingAppended<T>(s: seq<T>)
    ensures s + [] == s
  {
  }

  lemma {:induction false} FollowedNothing(max: nat, chain: Chain, restored: Batch)
    ensures Followed(max, chain, restored, []) == IngestBounded(max, Empty(), restored)
  {
  }

  /** The events in the daily logs; when every file fits the tail window these are the last ones in day order. */
  method LoadPersisted(entryWriter: NdjsonDailyWriter<EntryPointEvent>, postWriter: NdjsonDailyWriter<PaymasterEvent>,
      retentionMax: int)
    returns (b: Batch)
    requires entryWriter.Valid() && postWriter.Valid()
    ensures entryWriter.AllFit() && postWriter.AllFit()
      ==> b == R.Restored(entryWriter.codec, postWriter.codec, entryWriter.written, postWriter.written,
          Max(0, retentionMax))
  {
    var restoredEntry, _ := entryWriter.LoadRecent(retentionMax);
    var restoredPost, _ := postWriter.LoadRecent(retentionMax);
    b := Batch(restoredEntry, restoredPost);
  }

  /** Persisted events are fed back, EntryPoint events first. */
  method FeedRestored(store: UserOpAnalyticsStore, persisted: Batch)
    requires store.Valid()
    modifies store
    ensures store.Valid()
    ensures store.byHash == IngestBounded(store.max, old(store.byHash), persisted)
  {
    store.IngestEntryPointEvents(persisted.entries);
    store.IngestPaymasterEvents(persisted.posts);
  }

  /** What one more read does to everything the fields stand for. */
  lemma {:induction false} ReadGrows(max: nat, chain: Chain, restored: Batch, earlier: seq<Read>, seen: seq<Read>,
      rd: Read)
    ensures
      var b := RangeBatch(chain, rd.range, rd.found);
      && Followed(max, chain, restored, seen + [rd]) == IngestBounded(max, Followed(max, chain, restored, seen), b)
      && Logged(chain, earlier + (seen + [rd])).entries == Logged(chain, earlier + seen).entries + b.entries
      && Logged(chain, earlier + (seen + [rd])).posts == Logged(chain, earlier + seen).posts + b.posts
      && Ranges(seen + [rd]) == Ranges(seen) + [rd.range]
  {
    AppendAssoc(earlier, seen, rd);
    RangesSnoc(seen, rd);
    FollowedSnoc(max, chain, restored, seen, rd);
    LoggedSnoc(chain, earlier + seen, rd);
  }

  lemma {:induction false} BoundedSnoc(max: nat, bs: seq<Batch>, b: Batch)
    ensures IngestAllBounded(max, bs + [b]) == IngestBounded(max, IngestAllBounded(max, bs), b)
  {
    assert (bs + [b])[..|bs|] == bs;
  }

  lemma {:induction false} RestoredFirst(chain: Chain, restored: Batch, seen: seq<Read>, rd: Read)
    ensures [restored] + ReadBatches(chain, seen + [rd])
      == ([restored] + ReadBatches(chain, seen)) + [RangeBatch(chain, rd.range, rd.found)]
  {
    ReadBatchesSnoc(chain, seen, rd);
    AppendAssoc([restored], ReadBatches(chain, seen), RangeBatch(chain, rd.range, rd.found));
  }

  lemma {:induction false} NothingRead(max: nat, chain: Chain, restored: Batch)
    ensures IngestAllBounded(max, [restored] + ReadBatches(chain, [])) == IngestBounded(max, Empty(), restored)
  {
    assert [restored] + ReadBatches(chain, []) == [] + [restored];
    BoundedSnoc(max, [], restored);
  }

  lemma {:induction false} FollowedBatches(max: nat, chain: Chain, restored: Batch, seen: seq<Read>)
    ensures Followed(max, chain, restored, seen) == IngestAllBounded(max, [restored] + ReadBatches(chain, seen))
    decreases |seen|
  {
    if seen == [] {
      NothingRead(max, chain, restored);
    } else {
      var n := |seen| - 1;
      FollowedBatches(max, chain, restored, seen[..n]);
      RestoredFirst(chain, restored, seen[..n], seen[n]);
      BoundedSnoc(max, [restored] + ReadBatches(chain, seen[..n]), RangeBatch(chain, seen[n].range, seen[n].found));
      assert seen == seen[..n] + [seen[n]];
    }
  }

  /** Only reads with these lookups were added. */
  ghost predicate Extends(before: seq<Read>, after: seq<Read>, found: Lookups) {
    |before| <= |after| && after[..|before|] == before && forall i ::
        |before| <= i < |after| ==> after[i].found == found
  }

  lemma {:induction false} ExtendsStep(before: seq<Read>, after: seq<Read>, r: Range, found: Lookups)
    requires Extends(before, after, found)
    ensures Extends(before, after + [Read(r, found)], found)
  {
  }

  lemma {:induction false} LoggedBatchesStep(chain: Chain, seen: seq<Read>, rd: Read)
    requires Logged(chain, seen).entries == AllEntries(ReadBatches(chain, seen))
    requires Logged(chain, seen).posts == AllPosts(ReadBatches(chain, seen))
    ensures Logged(chain, seen + [rd]).entries == AllEntries(ReadBatches(chain, seen + [rd]))
    ensures Logged(chain, seen + [rd]).posts == AllPosts(ReadBatches(chain, seen + [rd]))
  {
    hide Logged, RangeBatch, AllEntries, AllPosts;
    LoggedSnoc(chain, seen, rd);
    ReadBatchesSnoc(chain, seen, rd);
    AllSnoc(ReadBatches(chain, seen), RangeBatch(chain, rd.range, rd.found));
  }

  lemma {:induction false} LoggedBatches(chain: Chain, seen: seq<Read>)
    ensures Logged(chain, seen).entries == AllEntries(ReadBatches(chain, seen))
    ensures Logged(chain, seen).posts == AllPosts(ReadBatches(chain, seen))
    decreases |seen|
  {
    if seen != [] {
      var n := |seen| - 1;
      LoggedBatches(chain, seen[..n]);
      LoggedBatchesStep(chain, seen[..n], seen[n]);
      assert seen == seen[..n] + [seen[n]];
    }
  }

  /** The cursor after one range. */
  function After(c: Cursor, r: Range, outcome: Outcome): Cursor {
    match outcome
    case RangeFails => c
    case WriteFails => Cursor(r.to, c.saved, c.done + [r])
    case Done => Cursor(r.to, Some(r.to), c.done + [r])
  }

  lemma {:induction false} SyncFromNext(cfg: Config, c: Cursor, from: int, latest: nat, outcome: Range -> Outcome,
      r: Range, next: Cursor)
    requires from <= latest && r == NextRange(cfg, from, latest) && next == After(c, r, outcome(r))
    ensures SyncFrom(cfg, c, from, latest, outcome)
      == if outcome(r) == Done then SyncFrom(cfg, next, r.to + 1, latest, outcome) else next
  {
  }

  class Indexer {
    const cfg: Config
    const chain: Chain
    const store: UserOpAnalyticsStore
    const entryWriter: NdjsonDailyWriter<EntryPointEvent>
    const postWriter: NdjsonDailyWriter<PaymasterEvent>
    ghost const earlier: seq<Read>
    ghost const restored: Batch
    var lastProcessedBlock: int
    var stateFile: Option<int>
    ghost var seen: seq<Read>
    ghost var done: seq<Range>

    ghost function State(): Cursor
      reads this
    {
      Cursor(lastProcessedBlock, stateFile, done)
    }

    ghost predicate Valid()
      reads this, store, entryWriter, postWriter
    {
      && store.Valid() && entryWriter.Valid() && postWriter.Valid()
      && (entryWriter as object) != postWriter && done == Ranges(seen)
      && store.byHash == Followed(store.max, chain, restored, seen)
      && entryWriter.written == Logged(chain, earlier + seen).entries
      && postWriter.written == Logged(chain, earlier + seen).posts
    }

    /** A start: the events in the daily logs are fed back, EntryPoint events first, and the cursor is taken from a
        state file of the same deployment. `earlier` is what the lives before this one have read. */
    constructor (cfg: Config, chain: Chain, store: UserOpAnalyticsStore,
        entryWriter: NdjsonDailyWriter<EntryPointEvent>, postWriter: NdjsonDailyWriter<PaymasterEvent>,
        retentionMax: int, d: Deployment, state: Option<StateFile>, ghost earlier: seq<Read>)
      requires store.Valid() && store.byHash == Empty()
      requires entryWriter.Valid() && postWriter.Valid() && (entryWriter as object) != postWriter
      requires entryWriter.written == Logged(chain, earlier).entries &&
          postWriter.written == Logged(chain, earlier).posts
      modifies store
      ensures Valid() && seen == []
      ensures this.cfg == cfg && this.chain == chain && this.store == store && this.earlier == earlier
      ensures this.entryWriter == entryWriter && this.postWriter == postWriter
      ensures entryWriter.AllFit() && postWriter.AllFit()
        ==> restored == R.Restored(entryWriter.codec, postWriter.codec, entryWriter.written, postWriter.written,
            Max(0, retentionMax))
      ensures State() == Cursor(SavedBlock(state, d).GetOr(0), SavedBlock(state, d), [])
    {
      this.cfg, this.chain, this.store := cfg, chain, store;
      this.entryWriter, this.postWriter, this.earlier := entryWriter, postWriter, earlier;
      lastProcessedBlock, stateFile, seen, done := 0, None, [], [];
      var persisted := LoadPersisted(entryWriter, postWriter, retentionMax);
      this.restored := persisted;
      new;
      hide *;
      Begin(persisted, state, d);
    }

    /** Persisted events are fed back, then the cursor is taken. */
    method Begin(persisted: Batch, state: Option<StateFile>, d: Deployment)
      requires store.Valid() && entryWriter.Valid() && postWriter.Valid() && (entryWriter as object) != postWriter
      requires persisted == restored && store.byHash == Empty() && seen == [] && done == [] &&
          lastProcessedBlock == 0 && stateFile == None
      requires entryWriter.written == Logged(chain, earlier).entries &&
          postWriter.written == Logged(chain, earlier).posts
      modifies this`lastProcessedBlock, this`stateFile, store
      ensures Valid()
      ensures State() == Cursor(SavedBlock(state, d).GetOr(0), SavedBlock(state, d), [])
    {
      hide Followed, Logged, IngestBounded;
      NothingAppended(earlier);
      FollowedNothing(store.max, chain, restored);
      FeedRestored(store, persisted);
      TakeCursor(state, d);
    }

    method TakeCursor(state: Option<StateFile>, d: Deployment)
      requires lastProcessedBlock == 0 && stateFile == None
      modifies this`lastProcessedBlock, this`stateFile
      ensures lastProcessedBlock == SavedBlock(state, d).GetOr(0) && stateFile == SavedBlock(state, d)
    {
      if state.Some? && SameDeployment(state.value, d) {
        lastProcessedBlock := state.value.lastProcessedBlock;
        stateFile := Some(lastProcessedBlock);
      }
    }

    /** Reads one range's logs, builds the events, hands them to the store and to the daily logs, EntryPoint events
        first. */
    method SyncRange(r: Range, found: Lookups)
      requires store.Valid() && entryWriter.Valid() && postWriter.Valid() && (entryWriter as object) != postWriter
      modifies store, entryWriter, postWriter
      ensures store.Valid() && entryWriter.Valid() && postWriter.Valid()
      ensures store.byHash == IngestBounded(store.max, old(store.byHash), RangeBatch(chain, r, found))
      ensures entryWriter.written == old(entryWriter.written) + RangeBatch(chain, r, found).entries
      ensures postWriter.written == old(postWriter.written) + RangeBatch(chain, r, found).posts
    {
      var entryLogs := Filter(EntryIn(r), chain.entryLogs);
      var postLogs := Filter(PostIn(r), chain.postLogs);
      var revertMap := ReadReverts(Filter(RevertIn(r), chain.revertLogs));
      var entryEvents := ReadEntries(chain, revertMap, entryLogs, found);
      var postEvents := ReadPosts(chain, postLogs, found);
      HandEntries(entryEvents);
      HandPosts(postEvents);
    }

    method HandEntries(entryEvents: seq<EntryPointEvent>)
      requires store.Valid() && entryWriter.Valid()
      modifies store, entryWriter
      ensures store.Valid() && entryWriter.Valid()
      ensures store.byHash == Evict(store.max, IngestEntries(old(store.byHash), entryEvents))
      ensures entryWriter.written == old(entryWriter.written) + entryEvents
    {
      if |entryEvents| > 0 {
        store.IngestEntryPointEvents(entryEvents);
        entryWriter.Append(entryEvents);
      }
    }

    method HandPosts(postEvents: seq<PaymasterEvent>)
      requires store.Valid() && postWriter.Valid()
      modifies store, postWriter
      ensures store.Valid() && postWriter.Valid()
      ensures store.byHash == Evict(store.max, IngestPosts(old(store.byHash), postEvents))
      ensures postWriter.written == old(postWriter.written) + postEvents
    {
      if |postEvents| > 0 {
        store.IngestPaymasterEvents(postEvents);
        postWriter.Append(postEvents);
      }
    }

    /** One range: stored, then the cursor moves, then the state file follows. Tells whether to go on. */
    method AdvanceOver(r: Range, outcome: Outcome, found: Lookups) returns (ok: bool)
      requires Valid()
      modifies this, store, entryWriter, postWriter
      ensures Valid()
      ensures ok <==> outcome == Done
      ensures seen == if outcome == RangeFails then old(seen) else old(seen) + [Read(r, found)]
      ensures State() == After(old(State()), r, outcome)
    {
      hide Followed, Logged, IngestBounded;
      if outcome == RangeFails {
        return false;
      }
      ReadGrows(store.max, chain, restored, earlier, seen, Read(r, found));
      SyncRange(r, found);
      lastProcessedBlock := r.to;
      seen, done := seen + [Read(r, found)], done + [r];
      if outcome == WriteFails {
        return false;
      }
      stateFile := Some(lastProcessedBlock);
      return true;
    }

    /** Catches up with the head, one range at a time, until it is reached or something fails. */
    method CatchUp(start: nat, latest: nat, outcome: Range -> Outcome, found: Lookups)
      requires Valid()
      modifies this, store, entryWriter, postWriter
      ensures Valid()
      ensures State() == SyncFrom(cfg, old(State()), start, latest, outcome)
      ensures Extends(old(seen), seen, found)
    {
      hide Followed, Logged, IngestBounded;
      ghost var before, goal := seen, SyncFrom(cfg, State(), start, latest, outcome);
      var from := start;
      while from <= latest
        invariant Valid() && from >= 0
        invariant SyncFrom(cfg, State(), from, latest, outcome) == goal
        invariant Extends(before, seen, found)
        decreases latest + 1 - from
      {
        var to := Min(latest, from + Max(1, cfg.maxBlockRange) - 1);
        var r := Range(from, to);
        ExtendsStep(before, seen, r, found);
        SyncFromNext(cfg, State(), from, latest, outcome, r, After(State(), r, outcome(r)));
        var ok := AdvanceOver(r, outcome(r), found);
        if !ok {
          return;
        }
        from := to + 1;
      }
    }

    /** One call, with the lookups that succeed in it: one step of the cursor protocol, and the fields still stand for
        everything read. */
    method SyncOnce(call: Call, found: Lookups)
      requires Valid()
      modifies this, store, entryWriter, postWriter
      ensures Valid()
      ensures State() == Sync(cfg, old(State()), call)
      ensures Extends(old(seen), seen, found)
    {
      if call.latest.None? {
        return;
      }
      var latest := call.latest.value;
      var from := Max(0, lastProcessedBlock + 1);
      if lastProcessedBlock == 0 {
        from := Max(0, latest - Max(0, cfg.lookbackBlocks));
      }
      CatchUp(from, latest, call.outcome, found);
    }

    /** After any number of lives and calls, with whatever heads, failures and failing lookups, within the retention
        limit: the store is exactly the join of everything ever read if and only if every paymaster event of the lives
        before has its EntryPoint event read in one of them, and every one of this life was read with or after its own,
        or in a life after it. */
    lemma {:induction false} StoreIsJoin(n: nat)
      requires Valid() && ChainRanges.WellFormed(chain) && UsesGas(chain)
      requires |Logged(chain, earlier).entries| <= n && |Logged(chain, earlier).posts| <= n
      requires restored
        == R.Restored(entryWriter.codec, postWriter.codec, Logged(chain, earlier).entries,
            Logged(chain, earlier).posts, n)
      requires |IngestBatches([restored] + ReadBatches(chain, seen)).keys| <= store.max
      ensures store.byHash.entries == ReadsJoin(chain, earlier + seen)
        <==> ((forall p | p in chain.postLogs && AnyPost(earlier, p) :: HasOp(chain, earlier, p))
              && InOrder(chain, earlier, seen))
    {
      LoggedBatches(chain, earlier);
      FollowedBatches(store.max, chain, restored, seen);
      R.RestoredYields(entryWriter.codec, postWriter.codec, chain, earlier, restored, n);
      NothingEvicted(store.max, [restored] + ReadBatches(chain, seen));
      ReadsJoinIff(chain, [restored], earlier, seen);
    }
  }
}
