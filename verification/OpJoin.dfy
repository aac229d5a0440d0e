/**
 What the index means: the join, by operation hash, of EntryPoint events with paymaster events. Ingestion in
 any order and with any repeats of batches gives exactly that join, as long as every paymaster event arrives
 with or after its EntryPoint event.
 */
module OpJoin {
  import opened Wrappers
  import opened Sequences
  import opened JsMaps
  import opened Text
  import opened OpRecords

  /** What one block range, or a restart, feeds the store: EntryPoint events first. */
  datatype Batch = Batch(entries: seq<EntryPointEvent>, posts: seq<PaymasterEvent>)

  type EntryIndex = map<string, EntryPointEvent>

  type PostIndex = map<string, PaymasterEvent>

  function Joined(e: EntryPointEvent, p: Option<PaymasterEvent>): Summary {
    Summary(e.ts, e.chainId, e.blockNumber, e.txHash, e.userOpHash, e.sender, e.paymaster, e.bundler, e.nonce,
            e.success, e.actualGasCostWei, e.actualGasUsed,
            if p.Some? then Some(p.value.feeAmount) else None,
            if p.Some? then Some(p.value.mode) else None,
            e.revertReason)
  }

  /** The join: one record per EntryPoint event, with the paymaster's fee and mode where there is one. */
  function Join(es: EntryIndex, ps: PostIndex): map<string, Summary> {
    map k | k in es :: Joined(es[k], if k in ps then Some(ps[k]) else None)
  }

  function IndexEntries(es: seq<EntryPointEvent>): EntryIndex {
    if es == [] then map[] else IndexEntries(es[..|es| - 1])[EntryKey(es[|es| - 1]) := es[|es| - 1]]
  }

  function IndexPosts(ps: seq<PaymasterEvent>): PostIndex {
    if ps == [] then map[] else IndexPosts(ps[..|ps| - 1])[PostKey(ps[|ps| - 1]) := ps[|ps| - 1]]
  }

  /** At most one event per hash: equal hashes mean the same event. */
  ghost predicate OneEntryPerHash(es: seq<EntryPointEvent>) {
    forall i, j | 0 <= i < |es| && 0 <= j < |es| && EntryKey(es[i]) == EntryKey(es[j]) :: es[i] == es[j]
  }

  ghost predicate OnePostPerHash(ps: seq<PaymasterEvent>) {
    forall i, j | 0 <= i < |ps| && 0 <= j < |ps| && PostKey(ps[i]) == PostKey(ps[j]) :: ps[i] == ps[j]
  }

  function AllEntries(bs: seq<Batch>): seq<EntryPointEvent> {
    if bs == [] then [] else AllEntries(bs[..|bs| - 1]) + bs[|bs| - 1].entries
  }

  function AllPosts(bs: seq<Batch>): seq<PaymasterEvent> {
    if bs == [] then [] else AllPosts(bs[..|bs| - 1]) + bs[|bs| - 1].posts
  }

  ghost predicate PostsIn(ps: seq<PaymasterEvent>, es: EntryIndex) {
    forall i :: 0 <= i < |ps| ==> PostKey(ps[i]) in es
  }

  /** Every paymaster event's EntryPoint event is in the same batch or an earlier one. */
  ghost predicate Covered(bs: seq<Batch>) {
    bs != [] ==>
      && Covered(bs[..|bs| - 1])
      && PostsIn(bs[|bs| - 1].posts, IndexEntries(AllEntries(bs)))
  }

  lemma {:induction false} AllSnoc(bs: seq<Batch>, b: Batch)
    ensures AllEntries(bs + [b]) == AllEntries(bs) + b.entries && AllPosts(bs + [b]) == AllPosts(bs) + b.posts
    ensures Covered(bs + [b]) <==> Covered(bs) && PostsIn(b.posts, IndexEntries(AllEntries(bs + [b])))
  {
    assert (bs + [b])[..|bs|] == bs;
  }

  lemma {:induction false} OneBatch(b: Batch)
    ensures AllEntries([b]) == b.entries && AllPosts([b]) == b.posts
  {
    AllSnoc([], b);
    assert [] + [b] == [b] && [] + b.entries == b.entries && [] + b.posts == b.posts;
  }

  lemma {:induction false} OneBatchCovered(b: Batch)
    ensures Covered([b]) <==> PostsIn(b.posts, IndexEntries(b.entries))
  {
    OneBatch(b);
    assert [b][..0] == [];
  }

  /** The same events, in whatever order and however often. */
  ghost predicate SameEvents(a: seq<Batch>, b: seq<Batch>) {
    Elements(AllEntries(a)) == Elements(AllEntries(b)) && Elements(AllPosts(a)) == Elements(AllPosts(b))
  }

  function IngestBatch(m: Index, b: Batch): Index {
    IngestPosts(IngestEntries(m, b.entries), b.posts)
  }

  function IngestBatches(bs: seq<Batch>): Index {
    if bs == [] then Empty() else IngestBatch(IngestBatches(bs[..|bs| - 1]), bs[|bs| - 1])
  }

  lemma {:induction false} IndexEntriesFacts(es: seq<EntryPointEvent>)
    requires OneEntryPerHash(es)
    ensures forall i :: 0 <= i < |es| ==>
        EntryKey(es[i]) in IndexEntries(es) && IndexEntries(es)[EntryKey(es[i])] == es[i]
    ensures forall k | k in IndexEntries(es) :: exists i ::
        0 <= i < |es| && EntryKey(es[i]) == k && es[i] == IndexEntries(es)[k]
  {
    if es != [] {
      var n := |es| - 1;
      IndexEntriesFacts(es[..n]);
      assert forall i | 0 <= i < n :: es[..n][i] == es[i];
      forall k | k in IndexEntries(es)
        ensures exists i :: 0 <= i < |es| && EntryKey(es[i]) == k && es[i] == IndexEntries(es)[k]
      {
        if k != EntryKey(es[n]) {
          var i :| 0 <= i < n && EntryKey(es[..n][i]) == k && es[..n][i] == IndexEntries(es[..n])[k];
          assert es[i] == IndexEntries(es)[k];
        }
      }
    }
  }

  lemma {:induction false} IndexPostsFacts(ps: seq<PaymasterEvent>)
    requires OnePostPerHash(ps)
    ensures forall i :: 0 <= i < |ps| ==> PostKey(ps[i]) in IndexPosts(ps) && IndexPosts(ps)[PostKey(ps[i])] == ps[i]
    ensures forall k | k in IndexPosts(ps) :: exists i ::
        0 <= i < |ps| && PostKey(ps[i]) == k && ps[i] == IndexPosts(ps)[k]
  {
    if ps != [] {
      var n := |ps| - 1;
      IndexPostsFacts(ps[..n]);
      assert forall i | 0 <= i < n :: ps[..n][i] == ps[i];
      forall k | k in IndexPosts(ps)
        ensures exists i :: 0 <= i < |ps| && PostKey(ps[i]) == k && ps[i] == IndexPosts(ps)[k]
      {
        if k != PostKey(ps[n]) {
          var i :| 0 <= i < n && PostKey(ps[..n][i]) == k && ps[..n][i] == IndexPosts(ps[..n])[k];
          assert ps[i] == IndexPosts(ps)[k];
        }
      }
    }
  }

  /** One EntryPoint event moves the store from one join to the next. */
  lemma {:induction false} EntryStep(m: Index, es: EntryIndex, ps: PostIndex, e: EntryPointEvent)
    requires m.entries == Join(es, ps)
    requires forall k | k in ps :: k in es
    requires EntryKey(e) in es ==> es[EntryKey(e)] == e
    ensures IngestEntry(m, e).entries == Join(es[EntryKey(e) := e], ps)
  {
    var k := EntryKey(e);
    if k in es {
      assert es[k := e] == es;
    } else {
      assert IngestEntry(m, e).entries == m.entries[k := Joined(e, None)];
    }
  }

  lemma {:induction false} PostStep(m: Index, es: EntryIndex, ps: PostIndex, p: PaymasterEvent)
    requires m.entries == Join(es, ps)
    requires PostKey(p) in es
    ensures IngestPost(m, p).entries == Join(es, ps[PostKey(p) := p])
  {
  }

  lemma {:induction false} IndexEntriesSnoc(es: seq<EntryPointEvent>, e: EntryPointEvent)
    requires OneEntryPerHash(es + [e])
    ensures IndexEntries(es + [e]) == IndexEntries(es)[EntryKey(e) := e]
    ensures OneEntryPerHash(es)
    ensures EntryKey(e) in IndexEntries(es) ==> IndexEntries(es)[EntryKey(e)] == e
  {
    var all := es + [e];
    assert all[..|es|] == es && all[|es|] == e;
    assert forall i | 0 <= i < |es| :: all[i] == es[i];
    IndexEntriesFacts(es);
  }

  lemma {:induction false} EntriesStep(m: Index, before: seq<EntryPointEvent>, ps: PostIndex, es: seq<EntryPointEvent>)
    requires m.entries == Join(IndexEntries(before), ps)
    requires forall k | k in ps :: k in IndexEntries(before)
    requires OneEntryPerHash(before + es)
    ensures IngestEntries(m, es).entries == Join(IndexEntries(before + es), ps)
    ensures forall k | k in ps :: k in IndexEntries(before + es)
    decreases |es|
  {
    if es == [] {
      assert before + es == before;
    } else {
      var n := |es| - 1;
      var prefix := before + es[..n];
      assert before + es == prefix + [es[n]];
      IndexEntriesSnoc(prefix, es[n]);
      EntriesStep(m, before, ps, es[..n]);
      EntryStep(IngestEntries(m, es[..n]), IndexEntries(prefix), ps, es[n]);
    }
  }

  lemma {:induction false} PostsStep(m: Index, es: EntryIndex, before: seq<PaymasterEvent>, ps: seq<PaymasterEvent>)
    requires m.entries == Join(es, IndexPosts(before))
    requires PostsIn(ps, es)
    ensures IngestPosts(m, ps).entries == Join(es, IndexPosts(before + ps))
    decreases |ps|
  {
    if ps == [] {
      assert before + ps == before;
    } else {
      var n := |ps| - 1;
      PostsStep(m, es, before, ps[..n]);
      PostStep(IngestPosts(m, ps[..n]), es, IndexPosts(before + ps[..n]), ps[n]);
      assert (before + ps)[..|before + ps| - 1] == before + ps[..n];
    }
  }

  lemma {:induction false} PostsCovered(ps: seq<PaymasterEvent>, es: EntryIndex)
    requires PostsIn(ps, es)
    ensures forall k | k in IndexPosts(ps) :: k in es
  {
    if ps != [] {
      PostsCovered(ps[..|ps| - 1], es);
    }
  }

  lemma {:induction false} IndexEntriesGrow(a: seq<EntryPointEvent>, b: seq<EntryPointEvent>)
    ensures forall k | k in IndexEntries(a) :: k in IndexEntries(a + b)
    decreases |b|
  {
    if b == [] {
      assert a + b == a;
    } else {
      IndexEntriesGrow(a, b[..|b| - 1]);
      assert (a + b)[..|a + b| - 1] == a + b[..|b| - 1];
    }
  }

  /** Every batch's paymaster events, over a covered history, have their EntryPoint events. */
  lemma {:induction false} AllPostsCovered(bs: seq<Batch>)
    requires Covered(bs)
    ensures PostsIn(AllPosts(bs), IndexEntries(AllEntries(bs)))
  {
    if bs != [] {
      var n := |bs| - 1;
      AllPostsCovered(bs[..n]);
      IndexEntriesGrow(AllEntries(bs[..n]), bs[n].entries);
    }
  }

  /** The store after any covered sequence of batches, in any order and with any repeats, is the join of
      everything in them. */
  lemma {:induction false} BatchesJoin(bs: seq<Batch>)
    requires Covered(bs) && OneEntryPerHash(AllEntries(bs))
    ensures IngestBatches(bs).entries == Join(IndexEntries(AllEntries(bs)), IndexPosts(AllPosts(bs)))
  {
    if bs != [] {
      var n := |bs| - 1;
      var es, ps := AllEntries(bs[..n]), AllPosts(bs[..n]);
      assert AllEntries(bs) == es + bs[n].entries;
      assert forall i | 0 <= i < |es| :: es[i] == AllEntries(bs)[i];
      BatchesJoin(bs[..n]);
      AllPostsCovered(bs[..n]);
      PostsCovered(ps, IndexEntries(es));
      var m := IngestBatches(bs[..n]);
      EntriesStep(m, es, IndexPosts(ps), bs[n].entries);
      PostsStep(IngestEntries(m, bs[n].entries), IndexEntries(AllEntries(bs)), ps, bs[n].posts);
    }
  }

  lemma {:induction false} SameEntriesSameIndexKey(a: seq<EntryPointEvent>, b: seq<EntryPointEvent>, k: string)
    requires OneEntryPerHash(a) && OneEntryPerHash(b) && Elements(a) == Elements(b) && k in IndexEntries(a)
    ensures k in IndexEntries(b) && IndexEntries(b)[k] == IndexEntries(a)[k]
  {
    IndexEntriesFacts(a);
    IndexEntriesFacts(b);
    var i :| 0 <= i < |a| && EntryKey(a[i]) == k && a[i] == IndexEntries(a)[k];
    assert a[i] in Elements(b);
    var j :| 0 <= j < |b| && b[j] == a[i];
  }

  lemma {:induction false} SameEntriesSameIndex(a: seq<EntryPointEvent>, b: seq<EntryPointEvent>)
    requires OneEntryPerHash(a + b) && Elements(a) == Elements(b)
    ensures IndexEntries(a) == IndexEntries(b)
  {
    assert forall i | 0 <= i < |a| :: (a + b)[i] == a[i];
    assert forall i | 0 <= i < |b| :: (a + b)[|a| + i] == b[i];
    assert OneEntryPerHash(a) && OneEntryPerHash(b);
    forall k
      ensures k in IndexEntries(a) <==> k in IndexEntries(b)
      ensures k in IndexEntries(a) ==> IndexEntries(a)[k] == IndexEntries(b)[k]
    {
      if k in IndexEntries(a) {
        SameEntriesSameIndexKey(a, b, k);
      }
      if k in IndexEntries(b) {
        SameEntriesSameIndexKey(b, a, k);
      }
    }
  }

  lemma {:induction false} SamePostsSameIndexKey(a: seq<PaymasterEvent>, b: seq<PaymasterEvent>, k: string)
    requires OnePostPerHash(a) && OnePostPerHash(b) && Elements(a) == Elements(b) && k in IndexPosts(a)
    ensures k in IndexPosts(b) && IndexPosts(b)[k] == IndexPosts(a)[k]
  {
    IndexPostsFacts(a);
    IndexPostsFacts(b);
    var i :| 0 <= i < |a| && PostKey(a[i]) == k && a[i] == IndexPosts(a)[k];
    assert a[i] in Elements(b);
    var j :| 0 <= j < |b| && b[j] == a[i];
  }

  lemma {:induction false} SamePostsSameIndex(a: seq<PaymasterEvent>, b: seq<PaymasterEvent>)
    requires OnePostPerHash(a + b) && Elements(a) == Elements(b)
    ensures IndexPosts(a) == IndexPosts(b)
  {
    assert forall i | 0 <= i < |a| :: (a + b)[i] == a[i];
    assert forall i | 0 <= i < |b| :: (a + b)[|a| + i] == b[i];
    assert OnePostPerHash(a) && OnePostPerHash(b);
    forall k
      ensures k in IndexPosts(a) <==> k in IndexPosts(b)
      ensures k in IndexPosts(a) ==> IndexPosts(a)[k] == IndexPosts(b)[k]
    {
      if k in IndexPosts(a) {
        SamePostsSameIndexKey(a, b, k);
      }
      if k in IndexPosts(b) {
        SamePostsSameIndexKey(b, a, k);
      }
    }
  }

  /** Two covered histories of the same events, however ordered, split or repeated, give the same records. */
  lemma {:induction false} ReplayIndependent(a: seq<Batch>, b: seq<Batch>)
    requires Covered(a) && Covered(b)
    requires OneEntryPerHash(AllEntries(a) + AllEntries(b)) && OnePostPerHash(AllPosts(a) + AllPosts(b))
    requires Elements(AllEntries(a)) == Elements(AllEntries(b)) && Elements(AllPosts(a)) == Elements(AllPosts(b))
    ensures IngestBatches(a).entries == IngestBatches(b).entries
  {
    hide Covered, IndexEntries, IndexPosts, AllEntries, AllPosts, IngestBatches, Join;
    var x, y := AllEntries(a), AllEntries(b);
    assert forall i | 0 <= i < |x| :: (x + y)[i] == x[i];
    assert forall i | 0 <= i < |y| :: (x + y)[|x| + i] == y[i];
    BatchesJoin(a);
    BatchesJoin(b);
    SameEntriesSameIndex(x, y);
    SamePostsSameIndex(AllPosts(a), AllPosts(b));
  }

  // ------------------------------------------------------------------ the order that does not join

  /** When the paymaster event arrives first, the EntryPoint event of the same transaction is ignored for ever:
      the record is the join exactly when the two events name different transactions or blocks. (The operation
      used some gas, so a partial record is not a join by accident.) */
  lemma {:induction false} PostFirstJoins(m: Index, p: PaymasterEvent, e: EntryPointEvent)
    requires PostKey(p) == EntryKey(e) && EntryKey(e) !in m.entries && e.actualGasUsed != "0"
    ensures
      var r := IngestEntry(IngestPost(m, p), e).entries[EntryKey(e)];
      && (r == Joined(e, Some(p)) <==> !(ToLower(p.txHash) == ToLower(e.txHash) && p.blockNumber == e.blockNumber))
      && (ToLower(p.txHash) == ToLower(e.txHash) && p.blockNumber == e.blockNumber ==> r == Partial(p))
  {
  }

  predicate SameTransaction(e: EntryPointEvent, p: PaymasterEvent) {
    ToLower(p.txHash) == ToLower(e.txHash) && p.blockNumber == e.blockNumber
  }

  /** And it stays partial through any later batch that tells nothing new about the operation. */
  lemma {:induction false} PartialStays(m: Index, p: PaymasterEvent, b: Batch)
    requires PostKey(p) in m.entries && m.entries[PostKey(p)] == Partial(p)
    requires forall i :: 0 <= i < |b.entries| && EntryKey(b.entries[i]) == PostKey(p) ==>
        SameTransaction(b.entries[i], p)
    requires forall i :: 0 <= i < |b.posts| && PostKey(b.posts[i]) == PostKey(p) ==> b.posts[i] == p
    ensures PostKey(p) in IngestBatch(m, b).entries && IngestBatch(m, b).entries[PostKey(p)] == Partial(p)
  {
    PartialThroughEntries(m, p, b.entries);
    PartialThroughPosts(IngestEntries(m, b.entries), p, b.posts);
  }

  lemma {:induction false} PartialThroughEntries(m: Index, p: PaymasterEvent, es: seq<EntryPointEvent>)
    requires PostKey(p) in m.entries && m.entries[PostKey(p)] == Partial(p)
    requires forall i :: 0 <= i < |es| && EntryKey(es[i]) == PostKey(p) ==> SameTransaction(es[i], p)
    ensures PostKey(p) in IngestEntries(m, es).entries && IngestEntries(m, es).entries[PostKey(p)] == Partial(p)
    decreases |es|
  {
    if es != [] {
      PartialThroughEntries(m, p, es[..|es| - 1]);
    }
  }

  lemma {:induction false} PartialThroughPosts(m: Index, p: PaymasterEvent, ps: seq<PaymasterEvent>)
    requires PostKey(p) in m.entries && m.entries[PostKey(p)] == Partial(p)
    requires forall i :: 0 <= i < |ps| && PostKey(ps[i]) == PostKey(p) ==> ps[i] == p
    ensures PostKey(p) in IngestPosts(m, ps).entries && IngestPosts(m, ps).entries[PostKey(p)] == Partial(p)
    decreases |ps|
  {
    if ps != [] {
      PartialThroughPosts(m, p, ps[..|ps| - 1]);
    }
  }

  // ------------------------------------------------------------------ the record of each operation

  /** Events of one operation come from one transaction, and there is at most one of each kind. */
  ghost predicate Paired(es: seq<EntryPointEvent>, ps: seq<PaymasterEvent>) {
    && OneEntryPerHash(es) && OnePostPerHash(ps)
    && (forall i, j | 0 <= i < |es| && 0 <= j < |ps| && EntryKey(es[i]) == PostKey(ps[j]) ::
        SameTransaction(es[i], ps[j]))
  }

  lemma {:induction false} PairedPrefix(bs: seq<Batch>)
    requires bs != [] && Paired(AllEntries(bs), AllPosts(bs))
    ensures Paired(AllEntries(bs[..|bs| - 1]), AllPosts(bs[..|bs| - 1]))
  {
    var n := |bs| - 1;
    var es, ps := AllEntries(bs[..n]), AllPosts(bs[..n]);
    assert forall i :: 0 <= i < |es| ==> AllEntries(bs)[i] == es[i];
    assert forall i :: 0 <= i < |ps| ==> AllPosts(bs)[i] == ps[i];
  }

  function EntryAt(bs: seq<Batch>, k: string): Option<EntryPointEvent> {
    var es := IndexEntries(AllEntries(bs));
    if k in es then Some(es[k]) else None
  }

  function PostAt(bs: seq<Batch>, k: string): Option<PaymasterEvent> {
    var ps := IndexPosts(AllPosts(bs));
    if k in ps then Some(ps[k]) else None
  }

  ghost predicate HasPost(ps: seq<PaymasterEvent>, k: string) {
    exists i :: 0 <= i < |ps| && PostKey(ps[i]) == k
  }

  /** Some batch has a paymaster event of the operation, and neither it nor an earlier one has its EntryPoint event. */
  ghost predicate Late(bs: seq<Batch>, k: string) {
    bs != [] && (Late(bs[..|bs| - 1], k) || (HasPost(bs[|bs| - 1].posts, k) && EntryAt(bs, k).None?))
  }

  /** The record of one operation. */
  function Record(e: Option<EntryPointEvent>, p: Option<PaymasterEvent>, late: bool): Option<Summary> {
    if late && p.Some? then Some(Partial(p.value))
    else if e.Some? then Some(Joined(e.value, p))
    else None
  }

  lemma {:induction false} IndexHasKey(es: seq<EntryPointEvent>, e: EntryPointEvent)
    requires e in es
    ensures EntryKey(e) in IndexEntries(es)
    decreases |es|
  {
    if e != es[|es| - 1] {
      assert es == es[..|es| - 1] + [es[|es| - 1]];
      IndexHasKey(es[..|es| - 1], e);
    }
  }

  lemma {:induction false} IndexHasPost(ps: seq<PaymasterEvent>, p: PaymasterEvent)
    requires p in ps
    ensures PostKey(p) in IndexPosts(ps)
    decreases |ps|
  {
    if p != ps[|ps| - 1] {
      assert ps == ps[..|ps| - 1] + [ps[|ps| - 1]];
      IndexHasPost(ps[..|ps| - 1], p);
    }
  }

  /** The event found for a key is the one there is. */
  lemma {:induction false} EntryAtFacts(bs: seq<Batch>, k: string)
    requires OneEntryPerHash(AllEntries(bs))
    ensures EntryAt(bs, k).Some? ==> EntryAt(bs, k).value in AllEntries(bs) && EntryKey(EntryAt(bs, k).value) == k
    ensures forall e :: e in AllEntries(bs) && EntryKey(e) == k ==> EntryAt(bs, k) == Some(e)
  {
    IndexEntriesFacts(AllEntries(bs));
  }

  lemma {:induction false} PostAtFacts(bs: seq<Batch>, k: string)
    requires OnePostPerHash(AllPosts(bs))
    ensures PostAt(bs, k).Some? ==> PostAt(bs, k).value in AllPosts(bs) && PostKey(PostAt(bs, k).value) == k
    ensures forall p :: p in AllPosts(bs) && PostKey(p) == k ==> PostAt(bs, k) == Some(p)
  {
    IndexPostsFacts(AllPosts(bs));
  }

  lemma {:induction false} EntriesAtKey(m: Index, es: seq<EntryPointEvent>, e: EntryPointEvent)
    requires forall i :: 0 <= i < |es| && EntryKey(es[i]) == EntryKey(e) ==> es[i] == e
    requires m.Get(EntryKey(e)).Some? ==> SameLog(m.Get(EntryKey(e)).value, e)
    ensures IngestEntries(m, es).Get(EntryKey(e))
      == if m.Get(EntryKey(e)).None? && e in es then Some(Joined(e, None)) else m.Get(EntryKey(e))
    decreases |es|
  {
    if es != [] {
      var n := |es| - 1;
      EntriesAtKey(m, es[..n], e);
      assert e in es <==> e in es[..n] || e == es[n];
    }
  }

  lemma {:induction false} EntriesElsewhere(m: Index, es: seq<EntryPointEvent>, k: string)
    requires forall i :: 0 <= i < |es| ==> EntryKey(es[i]) != k
    ensures IngestEntries(m, es).Get(k) == m.Get(k)
    decreases |es|
  {
    if es != [] {
      EntriesElsewhere(m, es[..|es| - 1], k);
    }
  }

  /** What a paymaster event makes of an operation's record. */
  function Paid(s: Option<Summary>, p: PaymasterEvent): Summary {
    if s.None? then Partial(p) else s.value.(feeAmount := Some(p.feeAmount), postOpMode := Some(p.mode))
  }

  lemma {:induction false} PostsAtKey(m: Index, ps: seq<PaymasterEvent>, p: PaymasterEvent)
    requires forall i :: 0 <= i < |ps| && PostKey(ps[i]) == PostKey(p) ==> ps[i] == p
    ensures IngestPosts(m, ps).Get(PostKey(p))
      == if p in ps then Some(Paid(m.Get(PostKey(p)), p)) else m.Get(PostKey(p))
    decreases |ps|
  {
    if ps != [] {
      var n := |ps| - 1;
      PostsAtKey(m, ps[..n], p);
      assert p in ps <==> p in ps[..n] || p == ps[n];
    }
  }

  lemma {:induction false} PostsElsewhere(m: Index, ps: seq<PaymasterEvent>, k: string)
    requires !HasPost(ps, k)
    ensures IngestPosts(m, ps).Get(k) == m.Get(k)
    decreases |ps|
  {
    if ps != [] {
      var n := |ps| - 1;
      assert PostKey(ps[n]) != k;
      assert forall i :: 0 <= i < n ==> ps[..n][i] == ps[i];
      PostsElsewhere(m, ps[..n], k);
    }
  }

  /** What one more batch finds: the events of before, and of the batch where there was none. */
  lemma {:induction false} FindsMore(bs: seq<Batch>, k: string)
    requires bs != [] && Paired(AllEntries(bs), AllPosts(bs))
    ensures
      var before, b, e, p := bs[..|bs| - 1], bs[|bs| - 1], EntryAt(bs, k), PostAt(bs, k);
      && EntryAt(before, k) == (if e.Some? && e.value in AllEntries(before) then e else None)
      && PostAt(before, k) == (if p.Some? && p.value in AllPosts(before) then p else None)
      && (forall i :: 0 <= i < |b.entries| && EntryKey(b.entries[i]) == k ==> e == Some(b.entries[i]))
      && (forall i :: 0 <= i < |b.posts| && PostKey(b.posts[i]) == k ==> p == Some(b.posts[i]))
      && (e.Some? ==> EntryKey(e.value) == k && (e.value in AllEntries(before) || e.value in b.entries))
      && (p.Some? ==> PostKey(p.value) == k && (p.value in AllPosts(before) || p.value in b.posts))
      && (e.Some? && p.Some? ==> SameTransaction(e.value, p.value))
  {
    var before, b := bs[..|bs| - 1], bs[|bs| - 1];
    PairedPrefix(bs);
    EntryAtFacts(bs, k);
    EntryAtFacts(before, k);
    PostAtFacts(bs, k);
    PostAtFacts(before, k);
    hide EntryAt, PostAt;
    assert AllEntries(bs) == AllEntries(before) + b.entries && AllPosts(bs) == AllPosts(before) + b.posts;
    forall i | 0 <= i < |b.entries|
      ensures b.entries[i] in AllEntries(bs)
    {
      assert AllEntries(bs)[|AllEntries(before)| + i] == b.entries[i];
    }
    forall i | 0 <= i < |b.posts|
      ensures b.posts[i] in AllPosts(bs)
    {
      assert AllPosts(bs)[|AllPosts(before)| + i] == b.posts[i];
    }
  }

  /** A late paymaster event is there, and one without an EntryPoint event is late. */
  lemma {:induction false} LateFacts(bs: seq<Batch>, k: string)
    requires Paired(AllEntries(bs), AllPosts(bs))
    ensures Late(bs, k) ==> PostAt(bs, k).Some?
    ensures PostAt(bs, k).Some? && EntryAt(bs, k).None? ==> Late(bs, k)
    decreases |bs|
  {
    if bs != [] {
      PairedPrefix(bs);
      LateFacts(bs[..|bs| - 1], k);
      FindsMore(bs, k);
    }
  }

  lemma {:induction false} BatchEntriesAt(m: Index, es: seq<EntryPointEvent>, e0: Option<EntryPointEvent>,
      e: Option<EntryPointEvent>, p: Option<PaymasterEvent>, late: bool, k: string)
    requires m.Get(k) == Record(e0, p, late)
    requires e0.Some? ==> e0 == e
    requires e.Some? ==> EntryKey(e.value) == k && (e0.Some? || e.value in es)
    requires forall i :: 0 <= i < |es| && EntryKey(es[i]) == k ==> e == Some(es[i])
    requires e.Some? && p.Some? ==> SameTransaction(e.value, p.value)
    requires late ==> p.Some?
    requires e0.None? && p.Some? ==> late
    ensures IngestEntries(m, es).Get(k) == Record(e, p, late)
  {
    if e.Some? {
      EntriesAtKey(m, es, e.value);
    } else {
      EntriesElsewhere(m, es, k);
    }
  }

  lemma {:induction false} BatchPostsAt(m: Index, ps: seq<PaymasterEvent>, e: Option<EntryPointEvent>,
      p0: Option<PaymasterEvent>, p: Option<PaymasterEvent>, late: bool, k: string)
    requires m.Get(k) == Record(e, p0, late)
    requires p0.Some? ==> p0 == p
    requires p.Some? ==> PostKey(p.value) == k && (p0.Some? || p.value in ps)
    requires forall i :: 0 <= i < |ps| && PostKey(ps[i]) == k ==> p == Some(ps[i])
    requires late ==> p0.Some?
    ensures IngestPosts(m, ps).Get(k) == Record(e, p, late || (HasPost(ps, k) && e.None?))
  {
    if HasPost(ps, k) {
      var i :| 0 <= i < |ps| && PostKey(ps[i]) == k;
      PostsAtKey(m, ps, p.value);
    } else {
      PostsElsewhere(m, ps, k);
    }
  }

  /** Whatever the history: an operation's record is the partial one exactly when a paymaster event of it was late, and
      otherwise the join of its events, or absent when there are none. */
  lemma {:induction false} RecordIs(bs: seq<Batch>, k: string)
    requires Paired(AllEntries(bs), AllPosts(bs))
    ensures IngestBatches(bs).Get(k) == Record(EntryAt(bs, k), PostAt(bs, k), Late(bs, k))
    decreases |bs|
  {
    if bs != [] {
      var before, b := bs[..|bs| - 1], bs[|bs| - 1];
      PairedPrefix(bs);
      RecordIs(before, k);
      LateFacts(before, k);
      FindsMore(bs, k);
      var m, late := IngestBatches(before), Late(before, k);
      hide EntryAt, PostAt, Record, IngestEntries, IngestPosts, Paired;
      BatchEntriesAt(m, b.entries, EntryAt(before, k), EntryAt(bs, k), PostAt(before, k), late, k);
      BatchPostsAt(IngestEntries(m, b.entries), b.posts, EntryAt(bs, k), PostAt(before, k), PostAt(bs, k), late, k);
    }
  }

  /** Covered means that nothing is late. */
  lemma {:induction false} CoveredNotLate(bs: seq<Batch>, k: string)
    requires Covered(bs)
    ensures !Late(bs, k)
    decreases |bs|
  {
    if bs != [] {
      var before, b := bs[..|bs| - 1], bs[|bs| - 1];
      CoveredNotLate(before, k);
      if HasPost(b.posts, k) {
        var i :| 0 <= i < |b.posts| && PostKey(b.posts[i]) == k;
      }
    }
  }

  lemma {:induction false} UncoveredLate(bs: seq<Batch>) returns (k: string)
    requires !Covered(bs)
    ensures Late(bs, k)
    decreases |bs|
  {
    var before, b := bs[..|bs| - 1], bs[|bs| - 1];
    if !Covered(before) {
      k := UncoveredLate(before);
    } else {
      var i :| 0 <= i < |b.posts| && PostKey(b.posts[i]) !in IndexEntries(AllEntries(bs));
      k := PostKey(b.posts[i]);
    }
  }

  /** Operations use some gas, so a partial record is not a join by accident. */
  ghost predicate GasUsed(es: seq<EntryPointEvent>) {
    forall i :: 0 <= i < |es| ==> es[i].actualGasUsed != "0"
  }

  lemma {:induction false} PartialOrJoin(bs: seq<Batch>, k: string, e: Option<EntryPointEvent>,
      p: Option<PaymasterEvent>)
    requires GasUsed(AllEntries(bs)) && OneEntryPerHash(AllEntries(bs)) && e == EntryAt(bs, k) && p.Some?
    ensures Record(e, p, false) != Some(Partial(p.value))
  {
    EntryAtFacts(bs, k);
    if e.Some? {
      var i :| 0 <= i < |AllEntries(bs)| && AllEntries(bs)[i] == e.value;
    }
  }

  /** A history that is not covered leaves some operation's record partial. */
  lemma {:induction false} UncoveredPartial(bs: seq<Batch>) returns (p: PaymasterEvent)
    requires !Covered(bs) && Paired(AllEntries(bs), AllPosts(bs))
    ensures p in AllPosts(bs) && IngestBatches(bs).Get(PostKey(p)) == Some(Partial(p))
  {
    var k := UncoveredLate(bs);
    RecordIs(bs, k);
    LateFacts(bs, k);
    PostAtFacts(bs, k);
    p := PostAt(bs, k).value;
  }

  // ------------------------------------------------------------------ exactly the covered histories join

  /** The store is the join if and only if every paymaster event arrived with or after its EntryPoint event. */
  lemma {:induction false} JoinIff(bs: seq<Batch>)
    requires Paired(AllEntries(bs), AllPosts(bs)) && GasUsed(AllEntries(bs))
    ensures IngestBatches(bs).entries == Join(IndexEntries(AllEntries(bs)), IndexPosts(AllPosts(bs))) <==> Covered(bs)
  {
    if Covered(bs) {
      BatchesJoin(bs);
    } else {
      var p := UncoveredPartial(bs);
      PostAtFacts(bs, PostKey(p));
      PartialOrJoin(bs, PostKey(p), EntryAt(bs, PostKey(p)), PostAt(bs, PostKey(p)));
    }
  }

  // ------------------------------------------------------------------ two histories

  ghost predicate Within(a: seq<Batch>, c: seq<Batch>) {
    Elements(AllEntries(a)) <= Elements(AllEntries(c)) && Elements(AllPosts(a)) <= Elements(AllPosts(c))
  }

  lemma {:induction false} PairedWithin(a: seq<Batch>, c: seq<Batch>)
    requires Within(a, c) && Paired(AllEntries(c), AllPosts(c))
    ensures Paired(AllEntries(a), AllPosts(a))
  {
    var es, ps, xs, ys := AllEntries(a), AllPosts(a), AllEntries(c), AllPosts(c);
    assert forall i :: 0 <= i < |es| ==> es[i] in Elements(xs);
    assert forall i :: 0 <= i < |ps| ==> ps[i] in Elements(ys);
  }

  lemma {:induction false} WithinAt(a: seq<Batch>, c: seq<Batch>, k: string)
    requires Within(a, c) && Paired(AllEntries(c), AllPosts(c))
    ensures EntryAt(a, k).Some? ==> EntryAt(a, k) == EntryAt(c, k)
    ensures PostAt(a, k).Some? ==> PostAt(a, k) == PostAt(c, k)
  {
    PairedWithin(a, c);
    EntryAtFacts(a, k);
    EntryAtFacts(c, k);
    PostAtFacts(a, k);
    PostAtFacts(c, k);
    hide EntryAt, PostAt;
    if EntryAt(a, k).Some? {
      assert EntryAt(a, k).value in Elements(AllEntries(c));
    }
    if PostAt(a, k).Some? {
      assert PostAt(a, k).value in Elements(AllPosts(c));
    }
  }

  /** What it takes for a part of a history to give one operation's record: the same lateness, and, unless the paymaster
      event is late, all of its events. */
  ghost predicate Gives(a: seq<Batch>, c: seq<Batch>, k: string) {
    && (Late(a, k) <==> Late(c, k))
    && (!Late(c, k) ==> EntryAt(a, k) == EntryAt(c, k) && PostAt(a, k) == PostAt(c, k))
  }

  lemma {:induction false} SameRecord(a: seq<Batch>, c: seq<Batch>, k: string)
    requires Within(a, c) && Paired(AllEntries(c), AllPosts(c)) && GasUsed(AllEntries(c))
    ensures IngestBatches(a).Get(k) == IngestBatches(c).Get(k) <==> Gives(a, c, k)
  {
    PairedWithin(a, c);
    WithinAt(a, c, k);
    RecordIs(a, k);
    RecordIs(c, k);
    LateFacts(a, k);
    LateFacts(c, k);
    hide Late, EntryAt, PostAt, IngestBatches, Paired;
    if PostAt(c, k).Some? {
      PartialOrJoin(c, k, EntryAt(c, k), PostAt(c, k));
      GasWithin(a, c);
      PartialOrJoin(a, k, EntryAt(a, k), PostAt(c, k));
    }
  }

  lemma {:induction false} GasWithin(a: seq<Batch>, c: seq<Batch>)
    requires Within(a, c) && Paired(AllEntries(c), AllPosts(c)) && GasUsed(AllEntries(c))
    ensures GasUsed(AllEntries(a)) && OneEntryPerHash(AllEntries(a))
  {
    PairedWithin(a, c);
    forall i | 0 <= i < |AllEntries(a)|
      ensures AllEntries(a)[i].actualGasUsed != "0"
    {
      assert AllEntries(a)[i] in Elements(AllEntries(c));
      var j :| 0 <= j < |AllEntries(c)| && AllEntries(c)[j] == AllEntries(a)[i];
    }
  }

  /** A part of any history gives the same records as the whole exactly when it gives every operation's. */
  lemma {:induction false} SameRecordsIff(a: seq<Batch>, c: seq<Batch>)
    requires Within(a, c) && Paired(AllEntries(c), AllPosts(c)) && GasUsed(AllEntries(c))
    ensures IngestBatches(a).entries == IngestBatches(c).entries <==> forall k :: Gives(a, c, k)
  {
    var x, y := IngestBatches(a), IngestBatches(c);
    forall k
      ensures x.Get(k) == y.Get(k) <==> Gives(a, c, k)
    {
      SameRecord(a, c, k);
    }
    SameMaps(x, y);
  }

  lemma {:induction false} SameMaps(x: Index, y: Index)
    ensures x.entries == y.entries <==> forall k :: x.Get(k) == y.Get(k)
  {
    if forall k :: x.Get(k) == y.Get(k) {
      forall k
        ensures k in x.entries <==> k in y.entries
        ensures k in x.entries ==> x.entries[k] == y.entries[k]
      {
        assert x.Get(k) == y.Get(k);
      }
    }
  }

  lemma {:induction false} SameEventsAt(a: seq<Batch>, c: seq<Batch>, k: string)
    requires SameEvents(a, c) && Paired(AllEntries(c), AllPosts(c))
    ensures EntryAt(a, k) == EntryAt(c, k) && PostAt(a, k) == PostAt(c, k)
  {
    PairedWithin(a, c);
    WithinAt(a, c, k);
    WithinAt(c, a, k);
  }

  /** The same operations have a late paymaster event. */
  ghost predicate SameLate(a: seq<Batch>, c: seq<Batch>) {
    forall k :: LateAlike(a, c, k)
  }

  ghost predicate LateAlike(a: seq<Batch>, c: seq<Batch>, k: string) {
    Late(a, k) <==> Late(c, k)
  }

  /** Two histories of the same events give the same records exactly when the same paymaster events were late. */
  lemma {:induction false} SameLateIff(a: seq<Batch>, c: seq<Batch>)
    requires SameEvents(a, c) && Paired(AllEntries(c), AllPosts(c)) && GasUsed(AllEntries(c))
    ensures IngestBatches(a).entries == IngestBatches(c).entries <==> SameLate(a, c)
  {
    SameRecordsIff(a, c);
    forall k
      ensures Gives(a, c, k) <==> LateAlike(a, c, k)
    {
      SameEventsAt(a, c, k);
    }
    hide Gives, LateAlike;
    if SameLate(a, c) {
      forall k
        ensures Gives(a, c, k)
      {
        assert LateAlike(a, c, k);
      }
    }
    if forall k :: Gives(a, c, k) {
      forall k
        ensures LateAlike(a, c, k)
      {
        assert Gives(a, c, k);
      }
    }
  }

  // ------------------------------------------------------------------ within the retention limit

  /** Ingesting a batch with eviction after each of its two parts. */
  function IngestBounded(max: nat, m: Index, b: Batch): (r: Index)
    requires m.Valid()
    ensures r.Valid()
  {
    Evict(max, IngestPosts(Evict(max, IngestEntries(m, b.entries)), b.posts))
  }

  function IngestAllBounded(max: nat, bs: seq<Batch>): (r: Index)
    ensures r.Valid()
  {
    if bs == [] then Empty() else IngestBounded(max, IngestAllBounded(max, bs[..|bs| - 1]), bs[|bs| - 1])
  }

  lemma {:induction false} EntriesGrow(m: Index, es: seq<EntryPointEvent>)
    ensures |m.keys| <= |IngestEntries(m, es).keys|
    decreases |es|
  {
    if es != [] {
      EntriesGrow(m, es[..|es| - 1]);
    }
  }

  lemma {:induction false} PostsGrow(m: Index, ps: seq<PaymasterEvent>)
    ensures |m.keys| <= |IngestPosts(m, ps).keys|
    decreases |ps|
  {
    if ps != [] {
      PostsGrow(m, ps[..|ps| - 1]);
    }
  }

  /** While the operations seen fit the retention limit, nothing is evicted. */
  lemma {:induction false} NothingEvicted(max: nat, bs: seq<Batch>)
    requires |IngestBatches(bs).keys| <= max
    ensures IngestAllBounded(max, bs) == IngestBatches(bs)
    decreases |bs|
  {
    if bs != [] {
      var n := |bs| - 1;
      var m := IngestBatches(bs[..n]);
      EntriesGrow(m, bs[n].entries);
      PostsGrow(IngestEntries(m, bs[n].entries), bs[n].posts);
      NothingEvicted(max, bs[..n]);
    }
  }
}
