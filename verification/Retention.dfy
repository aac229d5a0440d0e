/**
 * What retention keeps: with operations that no two share a time and block, eviction after every batch leaves exactly
 * the newest records of the store that evicts nothing.
 */
module Retention {
  import opened Wrappers
  import opened Sequences
  import opened Sorting
  import opened Text
  import opened JsMaps
  import opened OpRecords
  import opened OpJoin

  datatype Stamp = Stamp(ts: int, block: int)

  predicate Older(a: Stamp, b: Stamp) {
    a.ts < b.ts || (a.ts == b.ts && a.block < b.block)
  }

  function StampOf(s: Summary): Stamp {
    Stamp(s.ts, s.blockNumber)
  }

  /** Every record carries the stamp of its operation. */
  ghost predicate Stamped(stamp: string -> Stamp, m: Index) {
    forall k | k in m.entries :: StampOf(m.entries[k]) == stamp(k)
  }

  ghost predicate BatchStamped(stamp: string -> Stamp, b: Batch) {
    && (forall i :: 0 <= i < |b.entries| ==>
        Stamp(b.entries[i].ts, b.entries[i].blockNumber) == stamp(EntryKey(b.entries[i])))
    && (forall i :: 0 <= i < |b.posts| ==> Stamp(b.posts[i].ts, b.posts[i].blockNumber) == stamp(PostKey(b.posts[i])))
  }

  ghost predicate AllStamped(stamp: string -> Stamp, bs: seq<Batch>) {
    forall i :: 0 <= i < |bs| ==> BatchStamped(stamp, bs[i])
  }

  /** No two of these operations share a stamp. */
  ghost predicate Apart(stamp: string -> Stamp, keys: set<string>) {
    forall k, l | k in keys && l in keys && stamp(k) == stamp(l) :: k == l
  }

  lemma {:induction false} ApartWithin(stamp: string -> Stamp, a: set<string>, c: set<string>)
    requires a <= c && Apart(stamp, c)
    ensures Apart(stamp, a)
  {
  }

  /** A store that holds the newest max records of another one, unchanged. */
  ghost predicate Newest(max: nat, stamp: string -> Stamp, b: Index, u: Index) {
    && Keyed(b) && Keyed(u) && Stamped(stamp, b) && Stamped(stamp, u)
    && |b.keys| == Min(|u.keys|, max)
    && (forall k | k in b.entries :: k in u.entries && b.entries[k] == u.entries[k])
    && (forall k, l | k in u.entries && k !in b.entries && l in b.entries :: Older(stamp(k), stamp(l)))
  }

  lemma {:induction false} KeyCount(m: Index)
    requires m.Valid()
    ensures |m.entries.Keys| == |m.keys|
  {
    DistinctCardinality(m.keys);
    assert m.entries.Keys == Elements(m.keys);
  }

  lemma {:induction false} SubsetCount(a: set<string>, b: set<string>)
    requires a <= b
    ensures |a| <= |b|
    ensures |a| == |b| ==> a == b
  {
    assert b == a + (b - a);
  }

  // ---- One phase of a batch

  ghost predicate HasEntry(es: seq<EntryPointEvent>, k: string) {
    exists i :: 0 <= i < |es| && EntryKey(es[i]) == k
  }

  lemma {:induction false} HasEntrySnoc(es: seq<EntryPointEvent>, k: string)
    requires es != []
    ensures HasEntry(es, k) <==> HasEntry(es[..|es| - 1], k) || EntryKey(es[|es| - 1]) == k
  {
    if i :| 0 <= i < |es| - 1 && EntryKey(es[i]) == k {
      assert EntryKey(es[..|es| - 1][i]) == k;
    }
  }

  lemma {:induction false} HasPostSnoc(ps: seq<PaymasterEvent>, k: string)
    requires ps != []
    ensures HasPost(ps, k) <==> HasPost(ps[..|ps| - 1], k) || PostKey(ps[|ps| - 1]) == k
  {
    if i :| 0 <= i < |ps| - 1 && PostKey(ps[i]) == k {
      assert PostKey(ps[..|ps| - 1][i]) == k;
    }
  }

  lemma {:induction false} EntriesGrowKey(m: Index, es: seq<EntryPointEvent>, k: string)
    ensures k in IngestEntries(m, es).entries <==> k in m.entries || HasEntry(es, k)
    decreases |es|
  {
    if es != [] {
      HasEntrySnoc(es, k);
      hide HasEntry;
      EntriesGrowKey(m, es[..|es| - 1], k);
    }
  }

  lemma {:induction false} PostsGrowKey(m: Index, ps: seq<PaymasterEvent>, k: string)
    ensures k in IngestPosts(m, ps).entries <==> k in m.entries || HasPost(ps, k)
    decreases |ps|
  {
    if ps != [] {
      HasPostSnoc(ps, k);
      hide HasPost;
      PostsGrowKey(m, ps[..|ps| - 1], k);
    }
  }

  /** What ingestion makes of a record depends on that record only. */
  lemma {:induction false} EntriesSameAt(a: Index, c: Index, es: seq<EntryPointEvent>, k: string)
    requires a.Get(k) == c.Get(k)
    ensures IngestEntries(a, es).Get(k) == IngestEntries(c, es).Get(k)
    decreases |es|
  {
    if es != [] {
      EntriesSameAt(a, c, es[..|es| - 1], k);
    }
  }

  lemma {:induction false} PostsSameAt(a: Index, c: Index, ps: seq<PaymasterEvent>, k: string)
    requires a.Get(k) == c.Get(k)
    ensures IngestPosts(a, ps).Get(k) == IngestPosts(c, ps).Get(k)
    decreases |ps|
  {
    if ps != [] {
      PostsSameAt(a, c, ps[..|ps| - 1], k);
    }
  }

  lemma {:induction false} EntriesStamped(stamp: string -> Stamp, m: Index, es: seq<EntryPointEvent>)
    requires Stamped(stamp, m) && BatchStamped(stamp, Batch(es, []))
    ensures Stamped(stamp, IngestEntries(m, es))
    decreases |es|
  {
    if es != [] {
      var n := |es| - 1;
      assert BatchStamped(stamp, Batch(es[..n], []));
      EntriesStamped(stamp, m, es[..n]);
      assert Stamp(es[n].ts, es[n].blockNumber) == stamp(EntryKey(es[n]));
    }
  }

  lemma {:induction false} PostsStamped(stamp: string -> Stamp, m: Index, ps: seq<PaymasterEvent>)
    requires Stamped(stamp, m) && BatchStamped(stamp, Batch([], ps))
    ensures Stamped(stamp, IngestPosts(m, ps))
    decreases |ps|
  {
    if ps != [] {
      var n := |ps| - 1;
      assert BatchStamped(stamp, Batch([], ps[..n]));
      PostsStamped(stamp, m, ps[..n]);
      assert Stamp(ps[n].ts, ps[n].blockNumber) == stamp(PostKey(ps[n]));
    }
  }

  /** The two stores after the same events: they grow alike, and differ only on records evicted before. */
  ghost predicate Follows(b: Index, u: Index, b': Index, u': Index) {
    && (forall k | k in b.entries :: k in b'.entries)
    && (forall k | k in u.entries :: k in u'.entries)
    && (forall k | k in b'.entries :: k in u'.entries)
    && (forall k | k in b.entries || k !in u.entries :: b'.Get(k) == u'.Get(k))
  }

  lemma {:induction false} EntriesFollow(max: nat, stamp: string -> Stamp, b: Index, u: Index, es: seq<EntryPointEvent>)
    requires Newest(max, stamp, b, u)
    ensures Follows(b, u, IngestEntries(b, es), IngestEntries(u, es))
  {
    var b', u' := IngestEntries(b, es), IngestEntries(u, es);
    forall k
      ensures k in b.entries ==> k in b'.entries
      ensures k in u.entries ==> k in u'.entries
      ensures k in b'.entries ==> k in u'.entries
      ensures k in b.entries || k !in u.entries ==> b'.Get(k) == u'.Get(k)
    {
      EntriesGrowKey(b, es, k);
      EntriesGrowKey(u, es, k);
      if k in b.entries || k !in u.entries {
        EntriesSameAt(b, u, es, k);
      }
    }
  }

  lemma {:induction false} PostsFollow(max: nat, stamp: string -> Stamp, b: Index, u: Index, ps: seq<PaymasterEvent>)
    requires Newest(max, stamp, b, u)
    ensures Follows(b, u, IngestPosts(b, ps), IngestPosts(u, ps))
  {
    var b', u' := IngestPosts(b, ps), IngestPosts(u, ps);
    forall k
      ensures k in b.entries ==> k in b'.entries
      ensures k in u.entries ==> k in u'.entries
      ensures k in b'.entries ==> k in u'.entries
      ensures k in b.entries || k !in u.entries ==> b'.Get(k) == u'.Get(k)
    {
      PostsGrowKey(b, ps, k);
      PostsGrowKey(u, ps, k);
      if k in b.entries || k !in u.entries {
        PostsSameAt(b, u, ps, k);
      }
    }
  }

  // ---- Eviction among records with different stamps

  /** What eviction among records with different stamps does: it keeps as many as it may, and what it removes is
      older. */
  ghost predicate Survives(max: nat, stamp: string -> Stamp, m: map<string, Summary>, r: map<string, Summary>) {
    && |r.Keys| == Min(|m.Keys|, max)
    && (forall k | k in r :: k in m && r[k] == m[k])
    && (forall k, l | k in m && k !in r && l in r :: Older(stamp(k), stamp(l)))
  }

  lemma {:induction false} EvictedOlder(max: nat, stamp: string -> Stamp, m: Index, r: Index)
    requires Keyed(m) && Stamped(stamp, m) && Apart(stamp, m.entries.Keys) && r == Evict(max, m)
    ensures Keyed(r) && Stamped(stamp, r) && |r.keys| == Min(|m.keys|, max)
    ensures Survives(max, stamp, m.entries, r.entries)
  {
    hide Evict;
    EvictFacts(max, m);
    KeyCount(m);
    KeyCount(r);
    hide Keyed;
    StampsKept(stamp, m, r);
  }

  lemma {:induction false} StampsKept(stamp: string -> Stamp, m: Index, r: Index)
    requires Stamped(stamp, m) && Apart(stamp, m.entries.Keys)
    requires forall k | k in r.entries :: k in m.entries && r.entries[k] == m.entries[k]
    requires forall k, l | k in m.entries && k !in r.entries && l in r.entries :: NoNewer(m.entries[k], r.entries[l])
    ensures Stamped(stamp, r)
    ensures forall k, l | k in m.entries && k !in r.entries && l in r.entries :: Older(stamp(k), stamp(l))
  {
    forall k, l | k in m.entries && k !in r.entries && l in r.entries
      ensures Older(stamp(k), stamp(l))
    {
      assert NoNewer(m.entries[k], r.entries[l]);
      assert StampOf(m.entries[k]) == stamp(k) && StampOf(r.entries[l]) == stamp(l);
      assert k in m.entries.Keys && l in m.entries.Keys;
    }
  }

  /** A survivor beyond max others is newer than one of them. */
  lemma {:induction false} BeyondMax(max: nat, stamp: string -> Stamp, m: map<string, Summary>, r: map<string, Summary>,
      newer: set<string>, l: string) returns (k: string)
    requires Survives(max, stamp, m, r) && newer <= m.Keys && |newer| == max && l in r && l !in newer
    ensures k in newer && Older(stamp(k), stamp(l))
  {
    if newer <= r.Keys {
      SubsetCount(newer + {l}, r.Keys);
    }
    k :| k in newer && k !in r.Keys;
  }

  lemma {:induction false} OlderOnce(a: Stamp, b: Stamp, c: Stamp)
    ensures Older(a, b) && Older(b, c) ==> Older(a, c)
    ensures !(Older(a, b) && Older(b, a))
  {
  }

  /** One phase: the store with eviction holds the newest records of the other one, and both get the same events. */
  ghost predicate Phase(max: nat, stamp: string -> Stamp, b: Index, u: Index, b': Index, u': Index) {
    && Newest(max, stamp, b, u) && Follows(b, u, b', u')
    && Keyed(b') && Keyed(u') && Stamped(stamp, b') && Stamped(stamp, u') && Apart(stamp, u'.entries.Keys)
  }

  /** A record that was evicted and comes back is evicted again. */
  lemma {:induction false} NoneReturns(max: nat, stamp: string -> Stamp, b: Index, u: Index, b': Index, u': Index,
      r: Index, l: string)
    requires Phase(max, stamp, b, u, b', u') && Survives(max, stamp, b'.entries, r.entries) && l in r.entries
    ensures l in u'.entries && r.entries[l] == u'.entries[l]
  {
    hide Survives, Keyed, Stamped, Apart;
    SurvivorsAre(max, stamp, b'.entries, r.entries);
    if l in u.entries && l !in b.entries {
      FullWhenMissing(max, stamp, b, u, l);
      var k := BeyondMax(max, stamp, b'.entries, r.entries, b.entries.Keys, l);
      OlderOnce(stamp(k), stamp(l), stamp(k));
    } else {
      assert b'.Get(l) == u'.Get(l);
    }
  }

  lemma {:induction false} SurvivorsAre(max: nat, stamp: string -> Stamp, m: map<string, Summary>,
      r: map<string, Summary>)
    requires Survives(max, stamp, m, r)
    ensures forall k | k in r :: k in m && r[k] == m[k]
    ensures forall k, l | k in m && k !in r && l in r :: Older(stamp(k), stamp(l))
  {
  }

  /** When something was evicted the store is full. */
  lemma {:induction false} FullWhenMissing(max: nat, stamp: string -> Stamp, b: Index, u: Index, k: string)
    requires Newest(max, stamp, b, u) && k in u.entries && k !in b.entries
    ensures |b.entries.Keys| == max
  {
    KeyCount(b);
    KeyCount(u);
    if |u.keys| <= max {
      SubsetCount(b.entries.Keys, u.entries.Keys);
    }
  }

  lemma {:induction false} StillOlder(max: nat, stamp: string -> Stamp, b: Index, u: Index, b': Index, u': Index,
      r: Index, k: string, l: string)
    requires Phase(max, stamp, b, u, b', u') && Survives(max, stamp, b'.entries, r.entries)
    requires k in u'.entries && k !in r.entries && l in r.entries
    ensures Older(stamp(k), stamp(l))
  {
    hide Survives, Keyed, Stamped, Apart;
    SurvivorsAre(max, stamp, b'.entries, r.entries);
    if k !in b'.entries {
      assert b'.Get(k) != u'.Get(k);
      assert k in u.entries && k !in b.entries;
      if l !in b.entries {
        FullWhenMissing(max, stamp, b, u, k);
        var j := BeyondMax(max, stamp, b'.entries, r.entries, b.entries.Keys, l);
        OlderOnce(stamp(k), stamp(j), stamp(l));
      }
    }
  }

  lemma {:induction false} AllSurvive(max: nat, stamp: string -> Stamp, b: Index, u: Index, b': Index, u': Index,
      r: Index)
    requires Phase(max, stamp, b, u, b', u') && Survives(max, stamp, b'.entries, r.entries)
    ensures forall l | l in r.entries :: l in u'.entries && r.entries[l] == u'.entries[l]
    ensures forall k, l | k in u'.entries && k !in r.entries && l in r.entries :: Older(stamp(k), stamp(l))
  {
    hide *;
    forall l | l in r.entries
      ensures l in u'.entries && r.entries[l] == u'.entries[l]
    {
      NoneReturns(max, stamp, b, u, b', u', r, l);
    }
    forall k, l | k in u'.entries && k !in r.entries && l in r.entries
      ensures Older(stamp(k), stamp(l))
    {
      StillOlder(max, stamp, b, u, b', u', r, k, l);
    }
  }

  /** After a phase and its eviction the newest records are held again. */
  lemma {:induction false} EvictNewest(max: nat, stamp: string -> Stamp, b: Index, u: Index, b': Index, u': Index)
    requires Phase(max, stamp, b, u, b', u')
    ensures Newest(max, stamp, Evict(max, b'), u')
  {
    var r := Evict(max, b');
    PhaseCounts(max, stamp, b, u, b', u');
    hide Evict, Phase, Survives, Keyed, Stamped, Apart, Follows;
    EvictedOlder(max, stamp, b', r);
    AllSurvive(max, stamp, b, u, b', u', r);
  }

  lemma {:induction false} PhaseCounts(max: nat, stamp: string -> Stamp, b: Index, u: Index, b': Index, u': Index)
    requires Phase(max, stamp, b, u, b', u')
    ensures Min(|b'.keys|, max) == Min(|u'.keys|, max)
    ensures Keyed(b') && Keyed(u') && Stamped(stamp, b') && Stamped(stamp, u') && Apart(stamp, b'.entries.Keys)
  {
    Counts(b, u, b', u');
    ApartWithin(stamp, b'.entries.Keys, u'.entries.Keys);
    hide Keyed, Stamped, Apart, Follows;
    if |u.keys| <= max {
      NothingMissing(max, stamp, b, u);
    }
  }

  lemma {:induction false} NothingMissing(max: nat, stamp: string -> Stamp, b: Index, u: Index)
    requires Newest(max, stamp, b, u) && |u.keys| <= max
    ensures forall k | k in u.entries :: k in b.entries
  {
    KeyCount(b);
    KeyCount(u);
    SubsetCount(b.entries.Keys, u.entries.Keys);
  }

  lemma {:induction false} Counts(b: Index, u: Index, b': Index, u': Index)
    requires b.Valid() && u.Valid() && b'.Valid() && u'.Valid() && Follows(b, u, b', u')
    ensures |b.keys| == |b.entries.Keys| <= |b'.keys| <= |u'.keys|
    ensures |u.keys| <= |u'.keys|
    ensures (forall k | k in u.entries :: k in b.entries) ==> |b'.keys| == |u'.keys|
  {
    KeyCount(b);
    KeyCount(u);
    KeyCount(b');
    KeyCount(u');
    SubsetCount(b.entries.Keys, b'.entries.Keys);
    SubsetCount(b'.entries.Keys, u'.entries.Keys);
    SubsetCount(u.entries.Keys, u'.entries.Keys);
    if forall k | k in u.entries :: k in b.entries {
      forall k | k in u'.entries
        ensures k in b'.entries
      {
        assert b'.Get(k) == u'.Get(k);
      }
      assert b'.entries.Keys == u'.entries.Keys;
    }
  }

  // ---- Whole histories

  lemma {:induction false} BatchKeyed(m: Index, b: Batch)
    requires Keyed(m)
    ensures Keyed(IngestEntries(m, b.entries)) && Keyed(IngestBatch(m, b))
  {
    IngestEntriesKeyed(m, b.entries);
    IngestPostsKeyed(IngestEntries(m, b.entries), b.posts);
  }

  lemma {:induction false} BatchStays(stamp: string -> Stamp, m: Index, b: Batch)
    requires Stamped(stamp, m) && BatchStamped(stamp, b)
    ensures Stamped(stamp, IngestEntries(m, b.entries)) && Stamped(stamp, IngestBatch(m, b))
  {
    EntriesStamped(stamp, m, b.entries);
    PostsStamped(stamp, IngestEntries(m, b.entries), b.posts);
  }

  lemma {:induction false} BatchGrows(m: Index, b: Batch)
    ensures m.entries.Keys <= IngestEntries(m, b.entries).entries.Keys <= IngestBatch(m, b).entries.Keys
  {
    var e := IngestEntries(m, b.entries);
    forall k | k in m.entries.Keys
      ensures k in e.entries.Keys
    {
      EntriesGrowKey(m, b.entries, k);
    }
    forall k | k in e.entries.Keys
      ensures k in IngestBatch(m, b).entries.Keys
    {
      PostsGrowKey(e, b.posts, k);
    }
  }

  /** One batch with eviction after each part. */
  lemma {:induction false} BatchNewest(max: nat, stamp: string -> Stamp, m: Index, u: Index, b: Batch)
    requires Newest(max, stamp, m, u) && BatchStamped(stamp, b) && Apart(stamp, IngestBatch(u, b).entries.Keys)
    ensures Newest(max, stamp, IngestBounded(max, m, b), IngestBatch(u, b))
  {
    var m1, u1 := IngestEntries(m, b.entries), IngestEntries(u, b.entries);
    BatchKeyed(m, b);
    BatchKeyed(u, b);
    BatchStays(stamp, m, b);
    BatchStays(stamp, u, b);
    BatchGrows(u, b);
    ApartWithin(stamp, u1.entries.Keys, IngestBatch(u, b).entries.Keys);
    EntriesFollow(max, stamp, m, u, b.entries);
    EvictNewest(max, stamp, m, u, m1, u1);
    var kept := Evict(max, m1);
    IngestPostsKeyed(kept, b.posts);
    PostsStamped(stamp, kept, b.posts);
    PostsFollow(max, stamp, kept, u1, b.posts);
    EvictNewest(max, stamp, kept, u1, IngestPosts(kept, b.posts), IngestBatch(u, b));
  }

  /** Over any history, covered or not: the store with eviction holds exactly the newest records of the one without. */
  lemma {:induction false} BoundedNewest(max: nat, stamp: string -> Stamp, bs: seq<Batch>)
    requires AllStamped(stamp, bs) && Apart(stamp, IngestBatches(bs).entries.Keys)
    ensures Newest(max, stamp, IngestAllBounded(max, bs), IngestBatches(bs))
    decreases |bs|
  {
    if bs != [] {
      var n := |bs| - 1;
      BatchGrows(IngestBatches(bs[..n]), bs[n]);
      ApartWithin(stamp, IngestBatches(bs[..n]).entries.Keys, IngestBatches(bs).entries.Keys);
      BoundedNewest(max, stamp, bs[..n]);
      BatchNewest(max, stamp, IngestAllBounded(max, bs[..n]), IngestBatches(bs[..n]), bs[n]);
    }
  }

  // ---- The newest records of one store, and of two

  /** A record that only one of two selections has is older than one that only the other has, and the other way
      round. */
  lemma {:induction false} NewestKeys(max: nat, stamp: string -> Stamp, a: Index, c: Index, u: Index, w: Index)
    requires Newest(max, stamp, a, u) && Newest(max, stamp, c, w) && u.entries.Keys == w.entries.Keys
    ensures a.entries.Keys == c.entries.Keys
  {
    KeyCount(a);
    KeyCount(c);
    KeyCount(u);
    KeyCount(w);
    if k :| k in a.entries.Keys && k !in c.entries.Keys {
      if c.entries.Keys <= a.entries.Keys {
        SubsetCount(c.entries.Keys, a.entries.Keys);
      }
      var l :| l in c.entries.Keys && l !in a.entries.Keys;
      OlderOnce(stamp(k), stamp(l), stamp(k));
      assert false;
    }
    SubsetCount(a.entries.Keys, c.entries.Keys);
  }

  lemma {:induction false} NewestUnique(max: nat, stamp: string -> Stamp, a: Index, c: Index, u: Index)
    requires Newest(max, stamp, a, u) && Newest(max, stamp, c, u)
    ensures a.entries == c.entries
  {
    NewestKeys(max, stamp, a, c, u, u);
    forall k | k in a.entries.Keys
      ensures a.entries[k] == c.entries[k]
    {
      assert k in c.entries.Keys;
    }
  }

  /** Over any history, covered or not, with operations that no two share a time and block: evicting after every part of
      every batch leaves what evicting once at the end would leave. */
  lemma {:induction false} BoundedIsEvicted(max: nat, stamp: string -> Stamp, bs: seq<Batch>)
    requires AllStamped(stamp, bs) && Apart(stamp, IngestBatches(bs).entries.Keys)
    ensures Keyed(IngestBatches(bs))
    ensures IngestAllBounded(max, bs).entries == Evict(max, IngestBatches(bs)).entries
  {
    var u := IngestBatches(bs);
    BoundedNewest(max, stamp, bs);
    EvictedOlder(max, stamp, u, Evict(max, u));
    hide Evict, Keyed, Stamped, Apart, IngestAllBounded, IngestBatches;
    SurvivorsAre(max, stamp, u.entries, Evict(max, u).entries);
    NewestUnique(max, stamp, IngestAllBounded(max, bs), Evict(max, u), u);
  }

  lemma {:induction false} AgreeBelow(max: nat, stamp: string -> Stamp, b: map<string, Summary>, x: Index, y: Index,
      top: set<string>, l: string)
    requires Survives(max, stamp, x.entries, b) && l in b && top <= x.entries.Keys && |top| == max
    requires forall k | x.Get(k) != y.Get(k) :: k !in top && forall j | j in top :: Older(stamp(k), stamp(j))
    ensures l in y.entries && b[l] == y.entries[l]
    ensures forall k | k in y.entries && k !in b :: Older(stamp(k), stamp(l))
  {
    SurvivorsAre(max, stamp, x.entries, b);
    hide Survives, Older;
    var j := l;
    if l !in top {
      j := BeyondMax(max, stamp, x.entries, b, top, l);
      OlderOnce(stamp(j), stamp(l), stamp(j));
    }
    assert x.Get(l) == y.Get(l);
    forall k | k in y.entries && k !in b
      ensures Older(stamp(k), stamp(l))
    {
      if x.Get(k) != y.Get(k) {
        OlderOnce(stamp(k), stamp(j), stamp(l));
      }
    }
  }

  lemma {:induction false} AgreeAll(max: nat, stamp: string -> Stamp, b: map<string, Summary>, x: Index, y: Index,
      top: set<string>)
    requires Survives(max, stamp, x.entries, b) && top <= x.entries.Keys && |top| == max
    requires forall k | x.Get(k) != y.Get(k) :: k !in top && forall j | j in top :: Older(stamp(k), stamp(j))
    ensures forall l | l in b :: l in y.entries && b[l] == y.entries[l]
    ensures forall k, l | k in y.entries && k !in b && l in b :: Older(stamp(k), stamp(l))
  {
    hide Survives, Older;
    forall l | l in b
      ensures l in y.entries && b[l] == y.entries[l]
      ensures forall k | k in y.entries && k !in b :: Older(stamp(k), stamp(l))
    {
      AgreeBelow(max, stamp, b, x, y, top, l);
    }
  }

  lemma {:induction false} NewestSurvives(max: nat, stamp: string -> Stamp, b: Index, u: Index)
    requires Newest(max, stamp, b, u)
    ensures Survives(max, stamp, u.entries, b.entries) && |u.keys| == |u.entries.Keys|
  {
    KeyCount(b);
    KeyCount(u);
  }

  /** Two stores that agree on max records, and elsewhere only on what is not older, have the same newest records. */
  lemma {:induction false} NewestAgree(max: nat, stamp: string -> Stamp, b: Index, x: Index, y: Index, top: set<string>)
    requires Newest(max, stamp, b, x) && Keyed(y) && Stamped(stamp, y)
    requires top <= x.entries.Keys && top <= y.entries.Keys && |top| == max
    requires forall k | x.Get(k) != y.Get(k) :: k !in top && forall l | l in top :: Older(stamp(k), stamp(l))
    ensures Newest(max, stamp, b, y)
  {
    NewestSurvives(max, stamp, b, x);
    KeyCount(y);
    SubsetCount(top, x.entries.Keys);
    SubsetCount(top, y.entries.Keys);
    hide Keyed, Stamped, Survives, Older;
    AgreeAll(max, stamp, b.entries, x, y, top);
  }

  // ---- A tie

  lemma {:induction false} SortTwo(u: Summary, w: Summary)
    requires NoNewer(u, w)
    ensures Sort(NoNewer, [u, w]) == [u, w]
  {
    SortOfSorted(NoNewer, [u, w]);
  }

  lemma {:induction false} OneKey(m: Index, k: string)
    requires m.Valid() && m.entries.Keys == {k}
    ensures m.keys == [k]
  {
    KeyCount(m);
    assert m.keys[0] in m.entries.Keys;
  }

  lemma {:induction false} TwoValues(m: Index, k: string, l: string)
    requires m.Valid() && m.keys == [k, l]
    ensures k in m.entries && l in m.entries && k != l
    ensures m.Values() == [m.entries[k], m.entries[l]] && m.entries.Keys == {k, l}
  {
    assert m.keys[0] == k && m.keys[1] == l;
    assert m.keys[0] in m.keys && m.keys[1] in m.keys;
    assert m.Values()[0] == m.entries[k] && m.Values()[1] == m.entries[l];
  }

  lemma {:induction false} OldestOfTwo(m: Index, k: string, l: string)
    requires m.Valid() && m.keys == [k, l] && k in m.entries && l in m.entries && NoNewer(m.entries[k], m.entries[l])
    ensures Oldest(m, 1) == [m.entries[k]]
  {
    TwoValues(m, k, l);
    SortTwo(m.entries[k], m.entries[l]);
    assert [m.entries[k], m.entries[l]][..1] == [m.entries[k]];
  }

  lemma {:induction false} DeleteOne(m: Index, u: Summary)
    ensures DeleteAll(m, [u]).entries == m.entries - {ToLower(u.userOpHash)}
  {
    assert [u][..0] == [];
  }

  /** Of two records of one time and block eviction removes the one that came first. */
  lemma {:induction false} EvictTie(m: Index, k: string, l: string)
    requires Keyed(m) && m.keys == [k, l] && k in m.entries && l in m.entries && NoNewer(m.entries[k], m.entries[l])
    ensures Evict(1, m).entries == map[l := m.entries[l]] && Evict(1, m).keys == [l]
  {
    OldestOfTwo(m, k, l);
    TwoValues(m, k, l);
    DeleteOne(m, m.entries[k]);
    hide Oldest, DeleteAll;
    var r := Evict(1, m);
    assert r.entries == m.entries - {k};
    assert r.entries.Keys == {l};
    OneKey(r, l);
  }

  lemma {:induction false} BothIngested(m: Index, e: EntryPointEvent, f: EntryPointEvent)
    ensures IngestEntries(m, [e, f]) == IngestEntry(IngestEntry(m, e), f)
  {
    hide IngestEntry;
    assert [e, f][..1] == [e] && [e][..0] == [];
    assert IngestEntries(m, [e]) == IngestEntry(m, e);
  }

  lemma {:induction false} BothIngestedPosts(m: Index, p: PaymasterEvent, q: PaymasterEvent)
    ensures IngestPosts(m, [p, q]) == IngestPost(IngestPost(m, p), q)
  {
    hide IngestPost;
    assert [p, q][..1] == [p] && [p][..0] == [];
    assert IngestPosts(m, [p]) == IngestPost(m, p);
  }

  lemma {:induction false} TwoEntries(e: EntryPointEvent, f: EntryPointEvent, m: Index)
    requires EntryKey(e) != EntryKey(f) && m == IngestEntry(IngestEntry(Empty(), e), f)
    ensures m.keys == [EntryKey(e), EntryKey(f)] && EntryKey(e) in m.entries && EntryKey(f) in m.entries
    ensures m.entries[EntryKey(e)] == Joined(e, None) && m.entries[EntryKey(f)] == Joined(f, None)
  {
  }

  lemma {:induction false} TwoPosts(m: Index, p: PaymasterEvent, q: PaymasterEvent, r: Index)
    requires m.keys == [PostKey(q)] && m.entries.Keys == {PostKey(q)} && PostKey(p) != PostKey(q)
    requires r == IngestPost(IngestPost(m, p), q)
    ensures r.keys == [PostKey(q), PostKey(p)] && PostKey(p) in r.entries && PostKey(q) in r.entries
    ensures r.entries[PostKey(p)] == Partial(p) && StampOf(r.entries[PostKey(q)]) == StampOf(m.entries[PostKey(q)])
  {
    assert PostKey(p) !in m.entries.Keys;
    var first := IngestPost(m, p);
    assert first.keys == [PostKey(q), PostKey(p)] && first.entries[PostKey(p)] == Partial(p);
    assert PostKey(q) in m.entries.Keys;
  }

  /** Ingesting the paymaster events of both into a store that kept the second operation. */
  lemma {:induction false} TieAfterPosts(kept: Index, f: EntryPointEvent, p: PaymasterEvent, q: PaymasterEvent)
    requires Keyed(kept) && kept.keys == [PostKey(q)] && kept.entries == map[PostKey(q) := Joined(f, None)]
    requires PostKey(p) != PostKey(q) && Stamp(f.ts, f.blockNumber) == Stamp(p.ts, p.blockNumber)
    ensures Evict(1, IngestPosts(kept, [p, q])).entries == map[PostKey(p) := Partial(p)]
  {
    BothIngestedPosts(kept, p, q);
    TwoPosts(kept, p, q, IngestPost(IngestPost(kept, p), q));
    IngestPostsKeyed(kept, [p, q]);
    EvictTie(IngestPosts(kept, [p, q]), PostKey(q), PostKey(p));
  }

  lemma {:induction false} OneBatchBounded(max: nat, b: Batch)
    ensures IngestAllBounded(max, [b])
         == Evict(max, IngestPosts(Evict(max, IngestEntries(Empty(), b.entries)), b.posts))
  {
    assert [b][..0] == [];
  }

  lemma {:induction false} BothCovered(e: EntryPointEvent, f: EntryPointEvent, p: PaymasterEvent, q: PaymasterEvent)
    requires EntryKey(e) == PostKey(p) && EntryKey(f) == PostKey(q)
    ensures Covered([Batch([e, f], [p, q])])
  {
    OneBatchCovered(Batch([e, f], [p, q]));
    IndexHasKey([e, f], e);
    IndexHasKey([e, f], f);
  }

  /** After the EntryPoint events only the second operation is left. */
  lemma {:induction false} TieAfterEntries(e: EntryPointEvent, f: EntryPointEvent, m: Index)
    requires EntryKey(e) != EntryKey(f) && Stamp(e.ts, e.blockNumber) == Stamp(f.ts, f.blockNumber)
    requires m == IngestEntries(Empty(), [e, f])
    ensures m.Valid() && Keyed(Evict(1, m)) && Evict(1, m).keys == [EntryKey(f)]
    ensures Evict(1, m).entries == map[EntryKey(f) := Joined(f, None)]
  {
    hide Evict;
    BothIngested(Empty(), e, f);
    TwoEntries(e, f, m);
    IngestEntriesKeyed(Empty(), [e, f]);
    EvictTie(m, EntryKey(e), EntryKey(f));
    EvictFacts(1, m);
  }

  /**
   * Two operations of one time and block, and a store for one: after a single batch with all four events in order, what
   * is left is the partial record of the first operation, although its EntryPoint event was there.
   */
  lemma {:induction false} TieKeepsPartial(e: EntryPointEvent, f: EntryPointEvent, p: PaymasterEvent, q: PaymasterEvent)
    requires EntryKey(e) == PostKey(p) != EntryKey(f) == PostKey(q)
    requires Stamp(e.ts, e.blockNumber) == Stamp(f.ts, f.blockNumber) == Stamp(p.ts, p.blockNumber)
    ensures Covered([Batch([e, f], [p, q])])
    ensures IngestAllBounded(1, [Batch([e, f], [p, q])]).entries == map[PostKey(p) := Partial(p)]
  {
    hide *;
    BothCovered(e, f, p, q);
    TieAfterEntries(e, f, IngestEntries(Empty(), [e, f]));
    OneBatchBounded(1, Batch([e, f], [p, q]));
    TieAfterPosts(Evict(1, IngestEntries(Empty(), [e, f])), f, p, q);
  }
}
