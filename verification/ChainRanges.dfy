/** What the chain holds, what one block range feeds the store, and what any ranges together amount to. */
module ChainRanges {
  import opened Wrappers
  import opened Sequences
  import opened Text
  import opened OpRecords
  import opened OpJoin

  datatype EntryLog = EntryLog(
    block: nat, txHash: string, logIndex: int, userOpHash: string, sender: string, paymaster: string, nonce: string,
    success: bool, actualGasCost: string, actualGasUsed: string)

  datatype PostLog = PostLog(
    block: nat, txHash: string, logIndex: int, sender: string, userOpHash: string, mode: PostOpMode,
    actualGasCost: string, feePerGas: string, feeAmount: string)

  datatype RevertLog = RevertLog(block: nat, userOpHash: string, reason: string)

  /** The logs the indexer filters for, block times, and transaction senders. */
  datatype Chain = Chain(
    id: int, entryLogs: seq<EntryLog>, postLogs: seq<PostLog>, revertLogs: seq<RevertLog>,
    timestamp: nat -> int, sender: string -> Option<string>)

  datatype Range = Range(from: int, to: int) {
    predicate Has(block: nat) {
      from <= block <= to
    }
  }

  function EntryIn(r: Range): EntryLog -> bool {
    (l: EntryLog) => r.Has(l.block)
  }

  function PostIn(r: Range): PostLog -> bool {
    (l: PostLog) => r.Has(l.block)
  }

  function RevertIn(r: Range): RevertLog -> bool {
    (l: RevertLog) => r.Has(l.block)
  }

  /** The last reason per operation. */
  function RevertMap(ls: seq<RevertLog>): map<string, string> {
    if ls == [] then map[] else RevertMap(ls[..|ls| - 1])[ToLower(ls[|ls| - 1].userOpHash) := ls[|ls| - 1].reason]
  }

  function EntryEvent(c: Chain, reverts: map<string, string>, l: EntryLog): EntryPointEvent {
    EntryPointEvent(
      c.timestamp(l.block), c.id, l.block, l.txHash, l.logIndex, l.userOpHash, l.sender, l.paymaster, l.nonce,
      l.success, l.actualGasCost, l.actualGasUsed, c.sender(l.txHash),
      if ToLower(l.userOpHash) in reverts then Some(reverts[ToLower(l.userOpHash)]) else None)
  }

  function PostEvent(c: Chain, l: PostLog): PaymasterEvent {
    PaymasterEvent(c.timestamp(l.block), c.id, l.block, l.txHash, l.logIndex, l.sender, l.userOpHash, l.mode,
                   l.actualGasCost, l.feePerGas, l.feeAmount)
  }

  function EntryEvents(c: Chain, reverts: map<string, string>, ls: seq<EntryLog>): seq<EntryPointEvent> {
    Map((l: EntryLog) => EntryEvent(c, reverts, l), ls)
  }

  function PostEvents(c: Chain, ls: seq<PostLog>): seq<PaymasterEvent> {
    Map((l: PostLog) => PostEvent(c, l), ls)
  }

  /** Which per-event lookups succeed in one call: an event whose block or transaction cannot be read is skipped. */
  datatype Lookups = Lookups(entry: EntryLog -> bool, post: PostLog -> bool)

  const ALL_FOUND: Lookups := Lookups(l => true, l => true)

  /** One range read once, with the lookups that succeeded. */
  datatype Read = Read(range: Range, found: Lookups) {
    predicate HasEntry(l: EntryLog) {
      range.Has(l.block) && found.entry(l)
    }

    predicate HasPost(l: PostLog) {
      range.Has(l.block) && found.post(l)
    }
  }

  /** What one call for a range hands to the store. */
  function RangeBatch(c: Chain, r: Range, found: Lookups): Batch {
    Batch(EntryEvents(c, RevertMap(Filter(RevertIn(r), c.revertLogs)),
        Filter(found.entry, Filter(EntryIn(r), c.entryLogs))),
          PostEvents(c, Filter(found.post, Filter(PostIn(r), c.postLogs))))
  }

  // ------------------------------------------------------------------ ranges of a well-formed chain

  /** One EntryPoint event and at most one paymaster event per operation, the paymaster event in the transaction of the
      EntryPoint event and revert reasons in its block. */
  ghost predicate WellFormed(c: Chain) {
    && (forall i, j :: 0 <= i < j < |c.entryLogs| ==>
        ToLower(c.entryLogs[i].userOpHash) != ToLower(c.entryLogs[j].userOpHash))
    && (forall i, j :: 0 <= i < j < |c.postLogs| ==>
        ToLower(c.postLogs[i].userOpHash) != ToLower(c.postLogs[j].userOpHash))
    && (forall i :: 0 <= i < |c.postLogs| ==> exists j ::
        0 <= j < |c.entryLogs| && SameOp(c.entryLogs[j], c.postLogs[i]))
    && (forall i, j :: 0 <= i < |c.revertLogs| && 0 <= j < |c.entryLogs|
          && ToLower(c.revertLogs[i].userOpHash) == ToLower(c.entryLogs[j].userOpHash)
          ==> c.revertLogs[i].block == c.entryLogs[j].block)
  }

  predicate SameOp(e: EntryLog, p: PostLog) {
    ToLower(e.userOpHash) == ToLower(p.userOpHash) && e.block == p.block && ToLower(e.txHash) == ToLower(p.txHash)
  }

  /** The blocks of some ranges. */
  predicate InAny(rs: seq<Range>, block: nat) {
    exists i :: 0 <= i < |rs| && rs[i].Has(block)
  }

  /** Some read yields the event. */
  predicate AnyEntry(seen: seq<Read>, l: EntryLog) {
    exists i :: 0 <= i < |seen| && seen[i].HasEntry(l)
  }

  predicate AnyPost(seen: seq<Read>, l: PostLog) {
    exists i :: 0 <= i < |seen| && seen[i].HasPost(l)
  }

  function EntryRead(seen: seq<Read>): EntryLog -> bool {
    (l: EntryLog) => AnyEntry(seen, l)
  }

  function PostRead(seen: seq<Read>): PostLog -> bool {
    (l: PostLog) => AnyPost(seen, l)
  }

  function ChainEvent(c: Chain, l: EntryLog): EntryPointEvent {
    EntryEvent(c, RevertMap(c.revertLogs), l)
  }

  /** Everything some reads yield, read at once. */
  function Whole(c: Chain, seen: seq<Read>): Batch {
    Batch(EntryEvents(c, RevertMap(c.revertLogs), Filter(EntryRead(seen), c.entryLogs)),
          PostEvents(c, Filter(PostRead(seen), c.postLogs)))
  }

  /** The join of everything that some reads yield. */
  function ReadsJoin(c: Chain, seen: seq<Read>): map<string, Summary> {
    Join(IndexEntries(Whole(c, seen).entries), IndexPosts(Whole(c, seen).posts))
  }

  /** The join of everything in the blocks of some ranges. */
  function RangesJoin(c: Chain, rs: seq<Range>): map<string, Summary> {
    Join(IndexEntries(EntryEvents(c, RevertMap(c.revertLogs),
        Filter((l: EntryLog) => InAny(rs, l.block), c.entryLogs))),
         IndexPosts(PostEvents(c, Filter((l: PostLog) => InAny(rs, l.block), c.postLogs))))
  }

  function ReadBatches(c: Chain, seen: seq<Read>): seq<Batch> {
    Map((rd: Read) => RangeBatch(c, rd.range, rd.found), seen)
  }

  /** Cutting the revert logs to a range that holds all of an operation's revert logs loses nothing about it. */
  lemma {:induction false} RevertsInRange(ls: seq<RevertLog>, r: Range, key: string)
    requires forall i :: 0 <= i < |ls| && ToLower(ls[i].userOpHash) == key ==> r.Has(ls[i].block)
    ensures key in RevertMap(Filter(RevertIn(r), ls)) <==> key in RevertMap(ls)
    ensures key in RevertMap(ls) ==> RevertMap(Filter(RevertIn(r), ls))[key] == RevertMap(ls)[key]
    decreases |ls|
  {
    if ls != [] {
      var n := |ls| - 1;
      RevertsInRange(ls[..n], r, key);
      var kept := Filter(RevertIn(r), ls[..n]);
      assert (kept + [ls[n]])[..|kept|] == kept;
      assert kept + [] == kept;
    }
  }

  /** An event is the same whichever range it is read with. */
  lemma {:induction false} EventInRange(c: Chain, r: Range, l: EntryLog)
    requires WellFormed(c) && l in c.entryLogs && r.Has(l.block)
    ensures EntryEvent(c, RevertMap(Filter(RevertIn(r), c.revertLogs)), l) == ChainEvent(c, l)
  {
    var i :| 0 <= i < |c.entryLogs| && c.entryLogs[i] == l;
    RevertsInRange(c.revertLogs, r, ToLower(l.userOpHash));
  }

  lemma {:induction false} MapMember<A, B>(f: A -> B, s: seq<A>, y: B)
    ensures y in Map(f, s) <==> exists x :: x in s && f(x) == y
  {
    if y in Map(f, s) {
      var i :| 0 <= i < |s| && Map(f, s)[i] == y;
      assert s[i] in s;
    }
    if x :| x in s && f(x) == y {
      var i :| 0 <= i < |s| && s[i] == x;
      assert Map(f, s)[i] == y;
    }
  }

  lemma {:induction false} ReadEntryMember(c: Chain, rd: Read, e: EntryPointEvent)
    requires WellFormed(c)
    ensures e in RangeBatch(c, rd.range, rd.found).entries
      <==> exists l :: l in c.entryLogs && rd.HasEntry(l) && ChainEvent(c, l) == e
  {
    var inside := Filter(EntryIn(rd.range), c.entryLogs);
    var f := (l: EntryLog) => EntryEvent(c, RevertMap(Filter(RevertIn(rd.range), c.revertLogs)), l);
    MapMember(f, Filter(rd.found.entry, inside), e);
    forall l: EntryLog
      ensures l in Filter(rd.found.entry, inside) <==> l in c.entryLogs && rd.HasEntry(l)
      ensures l in c.entryLogs && rd.HasEntry(l) ==> f(l) == ChainEvent(c, l)
    {
      FilterMember(rd.found.entry, inside, l);
      FilterMember(EntryIn(rd.range), c.entryLogs, l);
      if l in c.entryLogs && rd.HasEntry(l) {
        EventInRange(c, rd.range, l);
      }
    }
  }

  lemma {:induction false} ReadPostMember(c: Chain, rd: Read, p: PaymasterEvent)
    ensures p in RangeBatch(c, rd.range, rd.found).posts
      <==> exists l :: l in c.postLogs && rd.HasPost(l) && PostEvent(c, l) == p
  {
    var inside := Filter(PostIn(rd.range), c.postLogs);
    MapMember((l: PostLog) => PostEvent(c, l), Filter(rd.found.post, inside), p);
    forall l: PostLog
      ensures l in Filter(rd.found.post, inside) <==> l in c.postLogs && rd.HasPost(l)
    {
      FilterMember(rd.found.post, inside, l);
      FilterMember(PostIn(rd.range), c.postLogs, l);
    }
  }

  ghost predicate EntryOf(c: Chain, seen: seq<Read>, e: EntryPointEvent) {
    exists l :: l in c.entryLogs && AnyEntry(seen, l) && ChainEvent(c, l) == e
  }

  ghost predicate PostOf(c: Chain, seen: seq<Read>, p: PaymasterEvent) {
    exists l :: l in c.postLogs && AnyPost(seen, l) && PostEvent(c, l) == p
  }

  lemma {:induction false} AnySnoc(seen: seq<Read>, rd: Read)
    ensures forall l :: AnyEntry(seen + [rd], l) <==> AnyEntry(seen, l) || rd.HasEntry(l)
    ensures forall l :: AnyPost(seen + [rd], l) <==> AnyPost(seen, l) || rd.HasPost(l)
  {
    var all := seen + [rd];
    assert all[|seen|] == rd && forall i :: 0 <= i < |seen| ==> all[i] == seen[i];
  }

  lemma {:induction false} ReadBatchesSnoc(c: Chain, seen: seq<Read>, rd: Read)
    ensures ReadBatches(c, seen + [rd]) == ReadBatches(c, seen) + [RangeBatch(c, rd.range, rd.found)]
  {
  }

  /** A history of batches has exactly the events that some reads yield. */
  ghost predicate Yields(c: Chain, bs: seq<Batch>, seen: seq<Read>) {
    && (forall e :: e in AllEntries(bs) <==> EntryOf(c, seen, e))
    && (forall p :: p in AllPosts(bs) <==> PostOf(c, seen, p))
  }

  lemma {:induction false} YieldsSnoc(c: Chain, bs: seq<Batch>, seen: seq<Read>, rd: Read)
    requires WellFormed(c) && Yields(c, bs, seen)
    ensures Yields(c, bs + [RangeBatch(c, rd.range, rd.found)], seen + [rd])
  {
    var b := RangeBatch(c, rd.range, rd.found);
    AllSnoc(bs, b);
    AnySnoc(seen, rd);
    forall e
      ensures e in AllEntries(bs + [b]) <==> EntryOf(c, seen + [rd], e)
    {
      ReadEntryMember(c, rd, e);
    }
    forall p
      ensures p in AllPosts(bs + [b]) <==> PostOf(c, seen + [rd], p)
    {
      ReadPostMember(c, rd, p);
    }
  }

  lemma {:induction false} WholeYields(c: Chain, seen: seq<Read>)
    ensures Yields(c, [Whole(c, seen)], seen)
  {
    var b := Whole(c, seen);
    OneBatch(b);
    forall e
      ensures e in b.entries <==> EntryOf(c, seen, e)
    {
      MapMember((l: EntryLog) => EntryEvent(c, RevertMap(c.revertLogs), l), Filter(EntryRead(seen), c.entryLogs), e);
      forall l: EntryLog
        ensures l in Filter(EntryRead(seen), c.entryLogs) <==> l in c.entryLogs && AnyEntry(seen, l)
      {
        FilterMember(EntryRead(seen), c.entryLogs, l);
      }
    }
    forall p
      ensures p in b.posts <==> PostOf(c, seen, p)
    {
      MapMember((l: PostLog) => PostEvent(c, l), Filter(PostRead(seen), c.postLogs), p);
      forall l: PostLog
        ensures l in Filter(PostRead(seen), c.postLogs) <==> l in c.postLogs && AnyPost(seen, l)
      {
        FilterMember(PostRead(seen), c.postLogs, l);
      }
    }
  }

  // ------------------------------------------------------------------ events of a well-formed chain are paired

  lemma {:induction false} SameOpSameLog(c: Chain, a: EntryLog, b: EntryLog)
    requires WellFormed(c) && a in c.entryLogs && b in c.entryLogs && ToLower(a.userOpHash) == ToLower(b.userOpHash)
    ensures a == b
  {
    var i :| 0 <= i < |c.entryLogs| && c.entryLogs[i] == a;
    var j :| 0 <= j < |c.entryLogs| && c.entryLogs[j] == b;
  }

  lemma {:induction false} EventsUnique(c: Chain, seen: seq<Read>, es: seq<EntryPointEvent>)
    requires WellFormed(c) && forall e | e in es :: EntryOf(c, seen, e)
    ensures OneEntryPerHash(es)
  {
    forall i, j | 0 <= i < |es| && 0 <= j < |es| && EntryKey(es[i]) == EntryKey(es[j])
      ensures es[i] == es[j]
    {
      assert es[i] in es && es[j] in es;
      var a :| a in c.entryLogs && AnyEntry(seen, a) && ChainEvent(c, a) == es[i];
      var b :| b in c.entryLogs && AnyEntry(seen, b) && ChainEvent(c, b) == es[j];
      SameOpSameLog(c, a, b);
    }
  }

  lemma {:induction false} PostsUnique(c: Chain, seen: seq<Read>, ps: seq<PaymasterEvent>)
    requires WellFormed(c) && forall p | p in ps :: PostOf(c, seen, p)
    ensures OnePostPerHash(ps)
  {
    forall i, j | 0 <= i < |ps| && 0 <= j < |ps| && PostKey(ps[i]) == PostKey(ps[j])
      ensures ps[i] == ps[j]
    {
      assert ps[i] in ps && ps[j] in ps;
      var a :| a in c.postLogs && AnyPost(seen, a) && PostEvent(c, a) == ps[i];
      var b :| b in c.postLogs && AnyPost(seen, b) && PostEvent(c, b) == ps[j];
      assert ToLower(a.userOpHash) == ToLower(b.userOpHash);
    }
  }

  /** The EntryPoint event of a paymaster event on the chain. */
  lemma {:induction false} EntryOfPost(c: Chain, p: PostLog) returns (e: EntryLog)
    requires WellFormed(c) && p in c.postLogs
    ensures e in c.entryLogs && SameOp(e, p)
  {
    var i :| 0 <= i < |c.postLogs| && c.postLogs[i] == p;
    var j :| 0 <= j < |c.entryLogs| && SameOp(c.entryLogs[j], c.postLogs[i]);
    e := c.entryLogs[j];
  }

  lemma {:induction false} EventsPaired(c: Chain, seen: seq<Read>, es: seq<EntryPointEvent>, ps: seq<PaymasterEvent>)
    requires WellFormed(c)
    requires (forall e | e in es :: EntryOf(c, seen, e)) && (forall p | p in ps :: PostOf(c, seen, p))
    ensures Paired(es, ps)
  {
    EventsUnique(c, seen, es);
    PostsUnique(c, seen, ps);
    forall i, j | 0 <= i < |es| && 0 <= j < |ps| && EntryKey(es[i]) == PostKey(ps[j])
      ensures SameTransaction(es[i], ps[j])
    {
      assert es[i] in es && ps[j] in ps;
      var a :| a in c.entryLogs && AnyEntry(seen, a) && ChainEvent(c, a) == es[i];
      var b :| b in c.postLogs && AnyPost(seen, b) && PostEvent(c, b) == ps[j];
      var e := EntryOfPost(c, b);
      SameOpSameLog(c, a, e);
    }
  }

  // ---- any ranges, any order, any repeats, any failing lookups

  /** Some read yields the EntryPoint event of this paymaster event. */
  ghost predicate HasOp(c: Chain, seen: seq<Read>, p: PostLog) {
    exists e :: e in c.entryLogs && SameOp(e, p) && AnyEntry(seen, e)
  }

  /** Every paymaster event that a read yields has its EntryPoint event yielded by that read or one before it. */
  ghost predicate InOrder(c: Chain, earlier: seq<Read>, seen: seq<Read>) {
    forall i, p | 0 <= i < |seen| && p in c.postLogs && seen[i].HasPost(p) :: HasOp(c, earlier + seen[..i + 1], p)
  }

  lemma {:induction false} IndexedIff(c: Chain, bs: seq<Batch>, seen: seq<Read>, p: PostLog)
    requires WellFormed(c) && p in c.postLogs && Yields(c, bs, seen)
    ensures PostKey(PostEvent(c, p)) in IndexEntries(AllEntries(bs)) <==> HasOp(c, seen, p)
  {
    var k := PostKey(PostEvent(c, p));
    var es := AllEntries(bs);
    EventsUnique(c, seen, es);
    IndexEntriesFacts(es);
    if k in IndexEntries(es) {
      var i :| 0 <= i < |es| && EntryKey(es[i]) == k && es[i] == IndexEntries(es)[k];
      assert es[i] in es;
      var l :| l in c.entryLogs && AnyEntry(seen, l) && ChainEvent(c, l) == es[i];
      var e := EntryOfPost(c, p);
      SameOpSameLog(c, l, e);
    }
    if HasOp(c, seen, p) {
      var e :| e in c.entryLogs && SameOp(e, p) && AnyEntry(seen, e);
      assert EntryOf(c, seen, ChainEvent(c, e));
      IndexHasKey(es, ChainEvent(c, e));
    }
  }

  lemma {:induction false} LastCovered(c: Chain, bs: seq<Batch>, seen: seq<Read>, rd: Read)
    requires WellFormed(c) && Yields(c, bs, seen)
    ensures PostsIn(RangeBatch(c, rd.range, rd.found).posts, IndexEntries(AllEntries(bs)))
      <==> forall p | p in c.postLogs && rd.HasPost(p) :: HasOp(c, seen, p)
  {
    var ps := RangeBatch(c, rd.range, rd.found).posts;
    if PostsIn(ps, IndexEntries(AllEntries(bs))) {
      forall p | p in c.postLogs && rd.HasPost(p)
        ensures HasOp(c, seen, p)
      {
        ReadPostMember(c, rd, PostEvent(c, p));
        var i :| 0 <= i < |ps| && ps[i] == PostEvent(c, p);
        IndexedIff(c, bs, seen, p);
      }
    }
    if forall p | p in c.postLogs && rd.HasPost(p) :: HasOp(c, seen, p) {
      forall i | 0 <= i < |ps|
        ensures PostKey(ps[i]) in IndexEntries(AllEntries(bs))
      {
        ReadPostMember(c, rd, ps[i]);
        var p :| p in c.postLogs && rd.HasPost(p) && PostEvent(c, p) == ps[i];
        IndexedIff(c, bs, seen, p);
      }
    }
  }

  lemma {:induction false} InOrderSnoc(c: Chain, earlier: seq<Read>, seen: seq<Read>, rd: Read)
    ensures InOrder(c, earlier, seen + [rd])
      <==> InOrder(c, earlier, seen) && forall p | p in c.postLogs && rd.HasPost(p) ::
          HasOp(c, earlier + (seen + [rd]), p)
  {
    var all := seen + [rd];
    assert all[|seen|] == rd && all[..|all|] == all;
    forall i | 0 <= i < |seen|
      ensures all[i] == seen[i] && all[..i + 1] == seen[..i + 1]
    {
    }
  }

  /** After some history, going on is covered exactly when the history is and the reads are in order. */
  lemma {:induction false} CoveredIff(c: Chain, before: seq<Batch>, earlier: seq<Read>, seen: seq<Read>)
    requires WellFormed(c) && Yields(c, before, earlier)
    ensures Yields(c, before + ReadBatches(c, seen), earlier + seen)
    ensures Covered(before + ReadBatches(c, seen)) <==> Covered(before) && InOrder(c, earlier, seen)
    decreases |seen|
  {
    if seen == [] {
      assert before + ReadBatches(c, seen) == before && earlier + seen == earlier;
    } else {
      var n := |seen| - 1;
      assert seen == seen[..n] + [seen[n]];
      CoveredIff(c, before, earlier, seen[..n]);
      CoveredStep(c, before, earlier, seen[..n], seen[n]);
    }
  }

  lemma {:induction false} CoveredStep(c: Chain, before: seq<Batch>, earlier: seq<Read>, seen: seq<Read>, rd: Read)
    requires WellFormed(c) && Yields(c, before + ReadBatches(c, seen), earlier + seen)
    requires Covered(before + ReadBatches(c, seen)) <==> Covered(before) && InOrder(c, earlier, seen)
    ensures Yields(c, before + ReadBatches(c, seen + [rd]), earlier + (seen + [rd]))
    ensures Covered(before + ReadBatches(c, seen + [rd])) <==> Covered(before) && InOrder(c, earlier, seen + [rd])
  {
    var bs, b := before + ReadBatches(c, seen), RangeBatch(c, rd.range, rd.found);
    ReadBatchesSnoc(c, seen, rd);
    assert before + ReadBatches(c, seen + [rd]) == bs + [b];
    assert earlier + (seen + [rd]) == (earlier + seen) + [rd];
    YieldsSnoc(c, bs, earlier + seen, rd);
    AllSnoc(bs, b);
    LastCovered(c, bs + [b], earlier + (seen + [rd]), rd);
    InOrderSnoc(c, earlier, seen, rd);
  }

  /** The records of two histories that yield the same join the same. */
  lemma {:induction false} SameJoin(c: Chain, a: seq<Batch>, b: seq<Batch>, seen: seq<Read>)
    requires WellFormed(c) && Yields(c, a, seen) && Yields(c, b, seen)
    ensures IndexEntries(AllEntries(a)) == IndexEntries(AllEntries(b)) &&
        IndexPosts(AllPosts(a)) == IndexPosts(AllPosts(b))
  {
    EventsUnique(c, seen, AllEntries(a) + AllEntries(b));
    PostsUnique(c, seen, AllPosts(a) + AllPosts(b));
    assert forall e :: e in Elements(AllEntries(a)) <==> e in Elements(AllEntries(b));
    assert forall p :: p in Elements(AllPosts(a)) <==> p in Elements(AllPosts(b));
    SameEntriesSameIndex(AllEntries(a), AllEntries(b));
    SamePostsSameIndex(AllPosts(a), AllPosts(b));
  }

  lemma {:induction false} WholeJoin(c: Chain, bs: seq<Batch>, seen: seq<Read>)
    requires WellFormed(c) && Yields(c, bs, seen)
    ensures Join(IndexEntries(AllEntries(bs)), IndexPosts(AllPosts(bs))) == ReadsJoin(c, seen)
  {
    var b := Whole(c, seen);
    WholeYields(c, seen);
    SameJoin(c, bs, [b], seen);
    OneBatch(b);
  }

  ghost predicate UsesGas(c: Chain) {
    forall i :: 0 <= i < |c.entryLogs| ==> c.entryLogs[i].actualGasUsed != "0"
  }

  lemma {:induction false} BatchesJoinIff(c: Chain, bs: seq<Batch>, seen: seq<Read>)
    requires WellFormed(c) && UsesGas(c) && Yields(c, bs, seen)
    ensures IngestBatches(bs).entries == ReadsJoin(c, seen) <==> Covered(bs)
  {
    EventsPaired(c, seen, AllEntries(bs), AllPosts(bs));
    forall i | 0 <= i < |AllEntries(bs)|
      ensures AllEntries(bs)[i].actualGasUsed != "0"
    {
      assert AllEntries(bs)[i] in AllEntries(bs);
      var l :| l in c.entryLogs && AnyEntry(seen, l) && ChainEvent(c, l) == AllEntries(bs)[i];
    }
    JoinIff(bs);
    WholeJoin(c, bs, seen);
  }

  /** Whatever ranges are read, in whatever order, with whatever repeats and failing lookups, after whatever history:
      the store is exactly the join of what was read if and only if that history was covered and every paymaster event
      was read with or after its EntryPoint event. */
  lemma {:induction false} ReadsJoinIff(c: Chain, before: seq<Batch>, earlier: seq<Read>, seen: seq<Read>)
    requires WellFormed(c) && UsesGas(c) && Yields(c, before, earlier)
    ensures IngestBatches(before + ReadBatches(c, seen)).entries == ReadsJoin(c, earlier + seen)
      <==> Covered(before) && InOrder(c, earlier, seen)
  {
    CoveredIff(c, before, earlier, seen);
    BatchesJoinIff(c, before + ReadBatches(c, seen), earlier + seen);
  }

  /** From an empty store. */
  lemma {:induction false} OrderedIff(c: Chain, seen: seq<Read>)
    requires WellFormed(c)
    ensures Yields(c, ReadBatches(c, seen), seen)
    ensures Covered(ReadBatches(c, seen)) <==> InOrder(c, [], seen)
  {
    var bs := ReadBatches(c, seen);
    assert [] + bs == bs;
    assert [] + seen == seen;
    NothingYields(c);
    CoveredIff(c, [], [], seen);
    assert Covered([]);
  }

  /** Both events of an operation that were read are found under its hash. */
  lemma {:induction false} EventsFound(c: Chain, bs: seq<Batch>, seen: seq<Read>, e: EntryLog, p: PostLog)
    requires WellFormed(c) && Yields(c, bs, seen) && SameOp(e, p)
    requires e in c.entryLogs && p in c.postLogs && AnyEntry(seen, e) && AnyPost(seen, p)
    ensures Paired(AllEntries(bs), AllPosts(bs))
    ensures EntryAt(bs, PostKey(PostEvent(c, p))) == Some(ChainEvent(c, e))
    ensures PostAt(bs, PostKey(PostEvent(c, p))) == Some(PostEvent(c, p))
  {
    EventsPaired(c, seen, AllEntries(bs), AllPosts(bs));
    EntryAtFacts(bs, PostKey(PostEvent(c, p)));
    PostAtFacts(bs, PostKey(PostEvent(c, p)));
    hide EntryAt, PostAt, Paired;
    assert EntryOf(c, seen, ChainEvent(c, e)) && PostOf(c, seen, PostEvent(c, p));
  }

  /** Reads out of order leave the partial record of some paymaster event they yield. */
  lemma {:induction false} OutOfOrderPartial(c: Chain, seen: seq<Read>) returns (post: PostLog)
    requires WellFormed(c) && !InOrder(c, [], seen)
    ensures post in c.postLogs && AnyPost(seen, post)
    ensures
      IngestBatches(ReadBatches(c, seen)).Get(PostKey(PostEvent(c, post))) == Some(Partial(PostEvent(c, post)))
  {
    var bs := ReadBatches(c, seen);
    OrderedIff(c, seen);
    EventsPaired(c, seen, AllEntries(bs), AllPosts(bs));
    var p := UncoveredPartial(bs);
    assert PostOf(c, seen, p);
    post :| post in c.postLogs && AnyPost(seen, post) && PostEvent(c, post) == p;
  }

  lemma {:induction false} OutOfOrderDiffers(c: Chain, seen: seq<Read>)
    requires WellFormed(c) && UsesGas(c) && !InOrder(c, [], seen)
    ensures IngestBatches(ReadBatches(c, seen)).entries != ReadsJoin(c, seen)
  {
    OrderedIff(c, seen);
    BatchesJoinIff(c, ReadBatches(c, seen), seen);
  }

  /** Reads whose lookups all succeed. */
  function Full(rs: seq<Range>): seq<Read> {
    Map((r: Range) => Read(r, ALL_FOUND), rs)
  }

  lemma {:induction false} FullAny(rs: seq<Range>)
    ensures forall l :: AnyEntry(Full(rs), l) <==> InAny(rs, l.block)
    ensures forall l :: AnyPost(Full(rs), l) <==> InAny(rs, l.block)
  {
    forall l: EntryLog
      ensures AnyEntry(Full(rs), l) <==> InAny(rs, l.block)
    {
      if i :| 0 <= i < |rs| && rs[i].Has(l.block) {
        assert Full(rs)[i].HasEntry(l);
      }
    }
    forall l: PostLog
      ensures AnyPost(Full(rs), l) <==> InAny(rs, l.block)
    {
      if i :| 0 <= i < |rs| && rs[i].Has(l.block) {
        assert Full(rs)[i].HasPost(l);
      }
    }
  }

  lemma {:induction false} FullInOrder(c: Chain, rs: seq<Range>)
    requires WellFormed(c)
    ensures InOrder(c, [], Full(rs))
  {
    forall i, p | 0 <= i < |Full(rs)| && p in c.postLogs && Full(rs)[i].HasPost(p)
      ensures HasOp(c, [] + Full(rs)[..i + 1], p)
    {
      var e := EntryOfPost(c, p);
      assert ([] + Full(rs)[..i + 1])[i].HasEntry(e);
    }
  }

  lemma {:induction false} OrderedReadsJoin(c: Chain, seen: seq<Read>)
    requires WellFormed(c) && InOrder(c, [], seen)
    ensures IngestBatches(ReadBatches(c, seen)).entries == ReadsJoin(c, seen)
  {
    var bs := ReadBatches(c, seen);
    OrderedIff(c, seen);
    EventsUnique(c, seen, AllEntries(bs));
    BatchesJoin(bs);
    WholeJoin(c, bs, seen);
  }

  lemma {:induction false} FullJoin(c: Chain, rs: seq<Range>)
    ensures ReadsJoin(c, Full(rs)) == RangesJoin(c, rs)
  {
    FullAny(rs);
    FilterCongruent(EntryRead(Full(rs)), (l: EntryLog) => InAny(rs, l.block), c.entryLogs);
    FilterCongruent(PostRead(Full(rs)), (l: PostLog) => InAny(rs, l.block), c.postLogs);
  }

  /** Syncing any ranges of a well-formed chain, in any order, overlapping or repeated, gives exactly the join of the
      events in the blocks they hold, as long as every lookup succeeds. */
  lemma {:induction false} RangesGiveJoin(c: Chain, rs: seq<Range>)
    requires WellFormed(c)
    ensures IngestBatches(ReadBatches(c, Full(rs))).entries == RangesJoin(c, rs)
  {
    FullInOrder(c, rs);
    OrderedReadsJoin(c, Full(rs));
    FullJoin(c, rs);
  }

  lemma {:induction false} NothingYields(c: Chain)
    ensures Yields(c, [], [])
  {
  }

  lemma {:induction false} InAnySnoc(rs: seq<Range>, block: nat)
    requires rs != []
    ensures InAny(rs, block) <==> InAny(rs[..|rs| - 1], block) || rs[|rs| - 1].Has(block)
  {
    var n := |rs| - 1;
    if InAny(rs, block) {
      var i :| 0 <= i < |rs| && rs[i].Has(block);
      if i < n {
        assert rs[..n][i].Has(block);
      }
    }
    if InAny(rs[..n], block) {
      var i :| 0 <= i < n && rs[..n][i].Has(block);
      assert rs[i].Has(block);
    }
  }
}
