/** A restart of the monitor when the store keeps at most as many operations as each daily log gives back. */
module RetainedRestart {
  import opened Wrappers
  import opened Sequences
  import opened OpRecords
  import opened OpJoin
  import opened DailyFiles
  import opened NdjsonDaily
  import opened Retention
  import opened Restart
  import Sorting

  // ---- Stamps of histories

  lemma {:induction false} PrefixStamped(stamp: string -> Stamp, bs: seq<Batch>)
    requires AllStamped(stamp, bs) && bs != []
    ensures AllStamped(stamp, bs[..|bs| - 1]) && BatchStamped(stamp, bs[|bs| - 1])
  {
  }

  lemma {:induction false} EventsStamped(stamp: string -> Stamp, bs: seq<Batch>)
    requires AllStamped(stamp, bs)
    ensures BatchStamped(stamp, Batch(AllEntries(bs), AllPosts(bs)))
    decreases |bs|
  {
    if bs != [] {
      PrefixStamped(stamp, bs);
      EventsStamped(stamp, bs[..|bs| - 1]);
    }
  }

  /** A batch of events of a history carries its stamps. */
  lemma {:induction false} PartStamped(stamp: string -> Stamp, r: Batch, bs: seq<Batch>)
    requires AllStamped(stamp, bs) && Within([r], bs)
    ensures BatchStamped(stamp, r)
  {
    OneBatch(r);
    EventsStamped(stamp, bs);
    var es, ps := AllEntries(bs), AllPosts(bs);
    forall i | 0 <= i < |r.entries|
      ensures Stamp(r.entries[i].ts, r.entries[i].blockNumber) == stamp(EntryKey(r.entries[i]))
    {
      assert r.entries[i] in Elements(es);
      var j :| 0 <= j < |es| && es[j] == r.entries[i];
    }
    forall i | 0 <= i < |r.posts|
      ensures Stamp(r.posts[i].ts, r.posts[i].blockNumber) == stamp(PostKey(r.posts[i]))
    {
      assert r.posts[i] in Elements(ps);
      var j :| 0 <= j < |ps| && ps[j] == r.posts[i];
    }
  }

  lemma {:induction false} RestartStamped(stamp: string -> Stamp, r: Batch, bs: seq<Batch>, more: seq<Batch>)
    requires AllStamped(stamp, bs + more) && Within([r], bs)
    ensures AllStamped(stamp, [r] + more) && AllStamped(stamp, bs)
  {
    assert forall i :: 0 <= i < |bs| ==> (bs + more)[i] == bs[i];
    assert forall i :: 0 <= i < |more| ==> (bs + more)[|bs| + i] == more[i];
    PartStamped(stamp, r, bs);
  }

  /** The operations of a history are those with an event. */
  lemma {:induction false} KnownKeys(bs: seq<Batch>, k: string)
    requires Paired(AllEntries(bs), AllPosts(bs))
    ensures k in IngestBatches(bs).entries <==> EntryAt(bs, k).Some? || PostAt(bs, k).Some?
  {
    RecordIs(bs, k);
    LateFacts(bs, k);
  }

  lemma {:induction false} KeysWithin(a: seq<Batch>, c: seq<Batch>)
    requires Within(a, c) && Paired(AllEntries(c), AllPosts(c))
    ensures IngestBatches(a).entries.Keys <= IngestBatches(c).entries.Keys
  {
    PairedWithin(a, c);
    forall k | k in IngestBatches(a).entries.Keys
      ensures k in IngestBatches(c).entries.Keys
    {
      KnownKeys(a, k);
      KnownKeys(c, k);
      WithinAt(a, c, k);
    }
  }

  // ---- Logs within their bound

  /** A restart within the bound of the logs changes exactly the stuck records. */
  lemma {:induction false} RestartedRecord(r: Batch, bs: seq<Batch>, more: seq<Batch>, k: string)
    requires SameEvents([r], bs)
    requires Paired(AllEntries(bs + more), AllPosts(bs + more)) && GasUsed(AllEntries(bs + more))
    ensures IngestBatches([r] + more).Get(k) == IngestBatches(bs + more).Get(k) <==> !Stuck(bs, k)
  {
    SameThrough([r], bs, more);
    SameRecord([r] + more, bs + more, k);
    SameEventsAt([r] + more, bs + more, k);
    RestartedLate(r, bs, more, k);
  }

  lemma {:induction false} SameKeys(a: seq<Batch>, c: seq<Batch>)
    requires SameEvents(a, c) && Paired(AllEntries(c), AllPosts(c))
    ensures IngestBatches(a).entries.Keys == IngestBatches(c).entries.Keys
  {
    PairedWithin(a, c);
    KeysWithin(a, c);
    KeysWithin(c, a);
  }

  /**
   * A restart with logs of at most n events each and a store of any bound, whatever follows, with operations that no
   * two share a time and block: the store is the one that never stopping would have given if and only if that one holds
   * no operation with a late paymaster event although its EntryPoint event arrived.
   */
  lemma {:induction false} BoundedRestartIff(entryCodec: Codec<EntryPointEvent>, postCodec: Codec<PaymasterEvent>,
      stamp: string -> Stamp, bs: seq<Batch>, more: seq<Batch>, n: nat, max: nat)
    requires |AllEntries(bs)| <= n && |AllPosts(bs)| <= n
    requires Paired(AllEntries(bs + more), AllPosts(bs + more)) && GasUsed(AllEntries(bs + more))
    requires AllStamped(stamp, bs + more) && Apart(stamp, IngestBatches(bs + more).entries.Keys)
    ensures
      var r, kept := Restored(entryCodec, postCodec, AllEntries(bs), AllPosts(bs), n), IngestAllBounded(max, bs + more);
      IngestAllBounded(max, [r] + more).entries == kept.entries <==> forall k | k in kept.entries :: !Stuck(bs, k)
  {
    var r := Restored(entryCodec, postCodec, AllEntries(bs), AllPosts(bs), n);
    RestoredSame(entryCodec, postCodec, bs, n);
    SameThrough([r], bs, more);
    SameKeys([r] + more, bs + more);
    RestartStamped(stamp, r, bs, more);
    BoundedNewest(max, stamp, [r] + more);
    BoundedNewest(max, stamp, bs + more);
    hide IngestAllBounded, IngestBatches, AllStamped, Apart, Stuck, Paired, GasUsed;
    forall k
      ensures IngestBatches([r] + more).Get(k) == IngestBatches(bs + more).Get(k) <==> !Stuck(bs, k)
    {
      RestartedRecord(r, bs, more, k);
    }
    SelectionsAgree(max, stamp, bs, IngestAllBounded(max, [r] + more), IngestAllBounded(max, bs + more),
                    IngestBatches([r] + more), IngestBatches(bs + more));
  }

  lemma {:induction false} SelectionsAgree(max: nat, stamp: string -> Stamp, bs: seq<Batch>, a: Index, c: Index,
      u: Index, w: Index)
    requires Newest(max, stamp, a, u) && Newest(max, stamp, c, w) && u.entries.Keys == w.entries.Keys
    requires forall k :: u.Get(k) == w.Get(k) <==> !Stuck(bs, k)
    ensures a.entries == c.entries <==> forall k | k in c.entries :: !Stuck(bs, k)
  {
    NewestKeys(max, stamp, a, c, u, w);
    hide Keyed, Stamped, Stuck;
    assert forall k | k in c.entries :: k in c.entries.Keys && k in a.entries.Keys;
    forall k | k in c.entries
      ensures a.entries[k] == c.entries[k] <==> !Stuck(bs, k)
    {
      assert u.Get(k) == Some(a.entries[k]) && w.Get(k) == Some(c.entries[k]);
    }
  }

  // ---- Logs of any length, written in chain order

  function EntryStamp(e: EntryPointEvent): Stamp {
    Stamp(e.ts, e.blockNumber)
  }

  function PostStamp(p: PaymasterEvent): Stamp {
    Stamp(p.ts, p.blockNumber)
  }

  /** Each event is newer than the ones logged before it. */
  ghost predicate Rising<T>(stampOf: T -> Stamp, s: seq<T>) {
    forall i, j :: 0 <= i < j < |s| ==> Older(stampOf(s[i]), stampOf(s[j]))
  }

  ghost predicate StampedByTime<T(!new)>(c: Codec<T>, stampOf: T -> Stamp) {
    forall x :: c.ts(x) == stampOf(x).ts
  }

  lemma {:induction false} DaysGrow(a: int, b: int)
    requires a <= b
    ensures a / SECONDS_PER_DAY <= b / SECONDS_PER_DAY
  {
  }

  /** A log in chain order is in day order. */
  lemma {:induction false} RisingInDayOrder<T(!new)>(c: Codec<T>, stampOf: T -> Stamp, s: seq<T>)
    requires Rising(stampOf, s) && StampedByTime(c, stampOf)
    ensures Sorting.Sort(ByDay(c), s) == s
  {
    forall i, j | 0 <= i < j < |s|
      ensures ByDay(c)(s[i], s[j])
    {
      DaysGrow(c.ts(s[i]), c.ts(s[j]));
    }
    Sorting.SortOfSorted(ByDay(c), s);
  }

  lemma {:induction false} NewerIsLater(es: seq<EntryPointEvent>, i: nat, l: nat)
    requires i < |es| && l < |es| && Rising(EntryStamp, es) && Older(EntryStamp(es[i]), EntryStamp(es[l]))
    ensures i < l
  {
    OlderOnce(EntryStamp(es[i]), EntryStamp(es[l]), EntryStamp(es[i]));
    if l < i {
      RisingAt(EntryStamp, es, l, i);
    }
  }

  lemma {:induction false} RisingAt<T>(stampOf: T -> Stamp, s: seq<T>, i: nat, j: nat)
    requires Rising(stampOf, s) && i < j < |s|
    ensures Older(stampOf(s[i]), stampOf(s[j]))
  {
  }

  /** Behind a paymaster event there are no more paymaster events than there are EntryPoint events behind its own. */
  lemma {:induction false} PostsBehind(es: seq<EntryPointEvent>, ps: seq<PaymasterEvent>, i: nat, j: nat)
    requires i < |es| && j < |ps| && EntryStamp(es[i]) == PostStamp(ps[j])
    requires Rising(EntryStamp, es) && Rising(PostStamp, ps)
    requires forall m :: 0 <= m < |ps| ==> exists l :: 0 <= l < |es| && EntryStamp(es[l]) == PostStamp(ps[m])
    ensures |ps| - j <= |es| - i
    decreases |ps| - j
  {
    if j + 1 < |ps| {
      var l :| 0 <= l < |es| && EntryStamp(es[l]) == PostStamp(ps[j + 1]);
      assert Older(PostStamp(ps[j]), PostStamp(ps[j + 1]));
      NewerIsLater(es, i, l);
      PostsBehind(es, ps, l, j + 1);
    }
  }

  /** Everything the restart theorem asks of what was logged: in chain order, covered, and each event stamped. */
  ghost predicate LoggedInOrder(stamp: string -> Stamp, bs: seq<Batch>) {
    && Covered(bs) && Paired(AllEntries(bs), AllPosts(bs)) && AllStamped(stamp, bs)
    && Rising(EntryStamp, AllEntries(bs)) && Rising(PostStamp, AllPosts(bs))
  }

  lemma {:induction false} StampsOfEvents(stamp: string -> Stamp, bs: seq<Batch>)
    requires LoggedInOrder(stamp, bs)
    ensures forall e | e in AllEntries(bs) :: EntryStamp(e) == stamp(EntryKey(e))
    ensures forall p | p in AllPosts(bs) :: PostStamp(p) == stamp(PostKey(p))
    ensures forall m :: 0 <= m < |AllPosts(bs)| ==>
      exists l :: 0 <= l < |AllEntries(bs)| && EntryStamp(AllEntries(bs)[l]) == PostStamp(AllPosts(bs)[m])
  {
    EventsStamped(stamp, bs);
    AllPostsCovered(bs);
    IndexEntriesFacts(AllEntries(bs));
    forall m | 0 <= m < |AllPosts(bs)|
      ensures exists l :: 0 <= l < |AllEntries(bs)| && EntryStamp(AllEntries(bs)[l]) == PostStamp(AllPosts(bs)[m])
    {
      var k := PostKey(AllPosts(bs)[m]);
      assert k in IndexEntries(AllEntries(bs));
      var l :| 0 <= l < |AllEntries(bs)| && EntryKey(AllEntries(bs)[l]) == k
               && AllEntries(bs)[l] == IndexEntries(AllEntries(bs))[k];
    }
  }

  /** The reloaded part of logs in order: their last n events. */
  lemma {:induction false} RestoredLast(entryCodec: Codec<EntryPointEvent>, postCodec: Codec<PaymasterEvent>,
      stamp: string -> Stamp, bs: seq<Batch>, n: nat)
    requires LoggedInOrder(stamp, bs) && StampedByTime(entryCodec, EntryStamp) && StampedByTime(postCodec, PostStamp)
    ensures Restored(entryCodec, postCodec, AllEntries(bs), AllPosts(bs), n) ==
        Batch(LastN(AllEntries(bs), n), LastN(AllPosts(bs), n))
  {
    RisingInDayOrder(entryCodec, EntryStamp, AllEntries(bs));
    RisingInDayOrder(postCodec, PostStamp, AllPosts(bs));
  }

  /** The operation of one of the last n EntryPoint events gets both of its events back. */
  lemma {:induction false} RecentComesBack(stamp: string -> Stamp, bs: seq<Batch>, r: Batch, n: nat, i: nat)
    requires LoggedInOrder(stamp, bs) && r == Batch(LastN(AllEntries(bs), n), LastN(AllPosts(bs), n))
    requires i < |AllEntries(bs)| && i >= |AllEntries(bs)| - n
    ensures AllEntries(bs)[i] in r.entries
    ensures forall p | p in AllPosts(bs) && PostKey(p) == EntryKey(AllEntries(bs)[i]) :: p in r.posts
  {
    hide Covered, Paired, AllStamped, AllEntries, AllPosts, LastN, Rising;
    var es, ps := AllEntries(bs), AllPosts(bs);
    StampsOfEvents(stamp, bs);
    InLast(es, n, i);
    forall p | p in ps && PostKey(p) == EntryKey(es[i])
      ensures p in r.posts
    {
      var j :| 0 <= j < |ps| && ps[j] == p;
      assert es[i] in es;
      PostsBehind(es, ps, i, j);
      InLast(ps, n, j);
    }
  }

  lemma {:induction false} InLast<T>(s: seq<T>, n: nat, i: nat)
    requires i < |s| && |s| - i <= n
    ensures s[i] in LastN(s, n)
  {
    if |s| > n {
      assert LastN(s, n)[i - (|s| - n)] == s[i];
    }
  }

  /** The record of an operation with both events back is the record of before. */
  lemma {:induction false} BackAt(r: Batch, bs: seq<Batch>, k: string)
    requires Within([r], bs) && Covered(bs) && Paired(AllEntries(bs), AllPosts(bs))
    requires EntryAt([r], k) == EntryAt(bs, k) && PostAt([r], k) == PostAt(bs, k)
    ensures IngestBatches([r]).Get(k) == IngestBatches(bs).Get(k)
  {
    PairedWithin([r], bs);
    CoveredNotLate(bs, k);
    LateFacts(bs, k);
    OneBatch(r);
    LateReloaded(r, k);
    RecordIs([r], k);
    RecordIs(bs, k);
  }

  /** What follows treats equal records alike. */
  lemma {:induction false} SameAtThrough(a: seq<Batch>, c: seq<Batch>, more: seq<Batch>, k: string)
    requires IngestBatches(a).Get(k) == IngestBatches(c).Get(k)
    ensures IngestBatches(a + more).Get(k) == IngestBatches(c + more).Get(k)
    decreases |more|
  {
    hide *;
    if more == [] {
      assert a + more == a && c + more == c;
    } else {
      var n := |more| - 1;
      SameAtThrough(a, c, more[..n], k);
      assert a + more == (a + more[..n]) + [more[n]] && c + more == (c + more[..n]) + [more[n]];
      SameAtStep(a + more[..n], c + more[..n], more[n], k);
    }
  }

  lemma {:induction false} SameAtStep(a: seq<Batch>, c: seq<Batch>, b: Batch, k: string)
    requires IngestBatches(a).Get(k) == IngestBatches(c).Get(k)
    ensures IngestBatches(a + [b]).Get(k) == IngestBatches(c + [b]).Get(k)
  {
    assert (a + [b])[..|a|] == a && (c + [b])[..|c|] == c;
    EntriesSameAt(IngestBatches(a), IngestBatches(c), b.entries, k);
    PostsSameAt(IngestEntries(IngestBatches(a), b.entries), IngestEntries(IngestBatches(c), b.entries), b.posts, k);
  }

  lemma {:induction false} RecentAt(stamp: string -> Stamp, bs: seq<Batch>, r: Batch, n: nat, i: nat, k: string)
    requires LoggedInOrder(stamp, bs) && r == Batch(LastN(AllEntries(bs), n), LastN(AllPosts(bs), n)) && Within([r], bs)
    requires i < |AllEntries(bs)| && i >= |AllEntries(bs)| - n && k == EntryKey(AllEntries(bs)[i])
    ensures EntryAt([r], k) == EntryAt(bs, k) && EntryAt(bs, k).Some? && PostAt([r], k) == PostAt(bs, k)
  {
    RecentComesBack(stamp, bs, r, n, i);
    OneBatch(r);
    PairedWithin([r], bs);
    hide LoggedInOrder, EntryAt, PostAt, Covered, AllStamped, AllEntries, AllPosts, LastN, Rising, Within;
    EntryAtFacts(bs, k);
    EntryAtFacts([r], k);
    PostAtFacts(bs, k);
    PostAtFacts([r], k);
    WithinAt([r], bs, k);
    hide Paired;
    assert AllEntries(bs)[i] in AllEntries(bs);
  }

  /** The operations of the last n EntryPoint events. */
  function Recent(bs: seq<Batch>, n: nat): set<string> {
    Elements(Map(EntryKey, LastN(AllEntries(bs), n)))
  }

  lemma {:induction false} RecentIndex(bs: seq<Batch>, n: nat, k: string) returns (i: nat)
    requires k in Recent(bs, n)
    ensures i < |AllEntries(bs)| && i >= |AllEntries(bs)| - n && k == EntryKey(AllEntries(bs)[i])
  {
    var es := AllEntries(bs);
    var last := LastN(es, n);
    var j :| 0 <= j < |last| && Map(EntryKey, last)[j] == k;
    i := |es| - |last| + j;
    assert last[j] == es[i];
  }

  lemma {:induction false} RecentMember(bs: seq<Batch>, n: nat, i: nat)
    requires i < |AllEntries(bs)| && i >= |AllEntries(bs)| - n
    ensures EntryKey(AllEntries(bs)[i]) in Recent(bs, n)
  {
    InLast(AllEntries(bs), n, i);
    MapElement(EntryKey, LastN(AllEntries(bs), n), AllEntries(bs)[i]);
  }

  lemma {:induction false} MapElement<A, B>(f: A -> B, s: seq<A>, x: A)
    requires x in s
    ensures f(x) in Elements(Map(f, s))
  {
    var i :| 0 <= i < |s| && s[i] == x;
    assert Map(f, s)[i] == f(x);
  }

  lemma {:induction false} RecentCount(stamp: string -> Stamp, bs: seq<Batch>, n: nat)
    requires LoggedInOrder(stamp, bs) && |AllEntries(bs)| > n
    ensures |Recent(bs, n)| == n
  {
    var es := AllEntries(bs);
    var last := LastN(es, n);
    var keys := Map(EntryKey, last);
    StampsOfEvents(stamp, bs);
    hide AllEntries, AllPosts, Covered, Paired, AllStamped;
    forall i, j | 0 <= i < j < |keys|
      ensures keys[i] != keys[j]
    {
      RecentApart(stamp, es, |es| - n + i, |es| - n + j);
    }
    DistinctCardinality(keys);
  }

  lemma {:induction false} RecentApart(stamp: string -> Stamp, es: seq<EntryPointEvent>, a: nat, b: nat)
    requires Rising(EntryStamp, es) && a < b < |es| && forall e | e in es :: EntryStamp(e) == stamp(EntryKey(e))
    ensures EntryKey(es[a]) != EntryKey(es[b])
  {
    assert es[a] in es && es[b] in es;
    assert Older(EntryStamp(es[a]), EntryStamp(es[b]));
    OlderOnce(EntryStamp(es[a]), EntryStamp(es[b]), EntryStamp(es[a]));
  }

  /** A record that the restart does not give back belongs to an operation older than all recent ones. */
  lemma {:induction false} LostIsOlder(stamp: string -> Stamp, bs: seq<Batch>, r: Batch, n: nat, k: string, l: string)
    requires LoggedInOrder(stamp, bs) && r == Batch(LastN(AllEntries(bs), n), LastN(AllPosts(bs), n)) && Within([r], bs)
    requires IngestBatches([r]).Get(k) != IngestBatches(bs).Get(k)
    ensures k !in Recent(bs, n)
    ensures l in Recent(bs, n) ==> Older(stamp(k), stamp(l))
  {
    var es := AllEntries(bs);
    CoveredNotLate(bs, k);
    LateFacts(bs, k);
    WithinAt([r], bs, k);
    EntryAtFacts(bs, k);
    StampsOfEvents(stamp, bs);
    hide EntryAt, PostAt, AllEntries, AllPosts, Recent, IngestBatches, Covered, Paired, AllStamped;
    if EntryAt(bs, k).None? {
      BackAt(r, bs, k);
    } else {
      var i :| 0 <= i < |es| && es[i] == EntryAt(bs, k).value;
      if k in Recent(bs, n) {
        var j := RecentIndex(bs, n, k);
        RecentAt(stamp, bs, r, n, j, k);
        BackAt(r, bs, k);
      }
      if i >= |es| - n {
        RecentMember(bs, n, i);
      } else if l in Recent(bs, n) {
        var j := RecentIndex(bs, n, l);
        assert es[i] in es && es[j] in es;
        assert Older(EntryStamp(es[i]), EntryStamp(es[j]));
      }
    }
  }

  /** A recent operation is known before and after. */
  lemma {:induction false} RecentKnown(stamp: string -> Stamp, bs: seq<Batch>, more: seq<Batch>, r: Batch, n: nat,
      k: string)
    requires LoggedInOrder(stamp, bs) && r == Batch(LastN(AllEntries(bs), n), LastN(AllPosts(bs), n)) && Within([r], bs)
    requires Paired(AllEntries(bs + more), AllPosts(bs + more)) && k in Recent(bs, n)
    ensures k in IngestBatches(bs + more).entries && k in IngestBatches([r] + more).entries
  {
    hide *;
    var i := RecentIndex(bs, n, k);
    assert LoggedInOrder(stamp, bs);
    RecentAt(stamp, bs, r, n, i, k);
    BackAtInOrder(stamp, r, bs, k);
    IndexedStays(bs, more, k);
    KnownKeys(bs + more, k);
    SameAtThrough([r], bs, more, k);
    GetKnown(IngestBatches([r] + more), IngestBatches(bs + more), k);
  }

  lemma {:induction false} GetKnown(a: Index, c: Index, k: string)
    requires a.Get(k) == c.Get(k) && k in c.entries
    ensures k in a.entries
  {
  }

  lemma {:induction false} BackAtInOrder(stamp: string -> Stamp, r: Batch, bs: seq<Batch>, k: string)
    requires Within([r], bs) && LoggedInOrder(stamp, bs)
    requires EntryAt([r], k) == EntryAt(bs, k) && PostAt([r], k) == PostAt(bs, k)
    ensures IngestBatches([r]).Get(k) == IngestBatches(bs).Get(k)
  {
    BackAt(r, bs, k);
  }

  /** More events than fit: the newest n records come back, and what does not come back is older. */
  lemma {:induction false} NewestComeBack(stamp: string -> Stamp, bs: seq<Batch>, more: seq<Batch>, r: Batch, n: nat,
      b: Index)
    requires LoggedInOrder(stamp, bs) && r == Batch(LastN(AllEntries(bs), n), LastN(AllPosts(bs), n)) && Within([r], bs)
    requires Paired(AllEntries(bs + more), AllPosts(bs + more)) && |AllEntries(bs)| > n
    requires Newest(n, stamp, b, IngestBatches([r] + more))
    requires Keyed(IngestBatches(bs + more)) && Stamped(stamp, IngestBatches(bs + more))
    ensures Newest(n, stamp, b, IngestBatches(bs + more))
  {
    var x, y := IngestBatches([r] + more), IngestBatches(bs + more);
    RecentCount(stamp, bs, n);
    hide *;
    forall k | k in Recent(bs, n)
      ensures k in x.entries.Keys && k in y.entries.Keys
    {
      RecentKnown(stamp, bs, more, r, n, k);
    }
    forall k | x.Get(k) != y.Get(k)
      ensures k !in Recent(bs, n) && forall l | l in Recent(bs, n) :: Older(stamp(k), stamp(l))
    {
      if IngestBatches([r]).Get(k) == IngestBatches(bs).Get(k) {
        SameAtThrough([r], bs, more, k);
      }
      forall l | l in Recent(bs, n)
        ensures Older(stamp(k), stamp(l))
      {
        LostIsOlder(stamp, bs, r, n, k, l);
      }
      LostIsOlder(stamp, bs, r, n, k, k);
    }
    NewestAgree(n, stamp, b, x, y, Recent(bs, n));
  }

  lemma {:induction false} FewPosts(stamp: string -> Stamp, bs: seq<Batch>)
    requires LoggedInOrder(stamp, bs)
    ensures |AllPosts(bs)| <= |AllEntries(bs)|
  {
    var es, ps := AllEntries(bs), AllPosts(bs);
    StampsOfEvents(stamp, bs);
    hide AllEntries, AllPosts, Covered, Paired, AllStamped;
    if ps != [] {
      assert 0 < |AllPosts(bs)|;
      var l :| 0 <= l < |es| && EntryStamp(es[l]) == PostStamp(ps[0]);
      PostsBehind(es, ps, l, 0);
    }
  }

  /** Everything fits: every record comes back. */
  lemma {:induction false} AllBack(stamp: string -> Stamp, bs: seq<Batch>, more: seq<Batch>, r: Batch, n: nat)
    requires LoggedInOrder(stamp, bs) && r == Batch(LastN(AllEntries(bs), n), LastN(AllPosts(bs), n))
    requires |AllEntries(bs)| <= n
    ensures IngestBatches([r] + more).entries == IngestBatches(bs + more).entries
  {
    FewPosts(stamp, bs);
    OneBatch(r);
    hide AllEntries, AllPosts, IngestBatches, Covered, AllStamped, Rising, EntryAt, PostAt, Paired;
    forall k
      ensures IngestBatches([r] + more).Get(k) == IngestBatches(bs + more).Get(k)
    {
      SameEventsAt([r], bs, k);
      BackAt(r, bs, k);
      SameAtThrough([r], bs, more, k);
    }
    SameMaps(IngestBatches([r] + more), IngestBatches(bs + more));
  }

  lemma {:induction false} SameSelection(max: nat, stamp: string -> Stamp, a: Index, c: Index, u: Index, w: Index)
    requires Newest(max, stamp, a, u) && Newest(max, stamp, c, w) && u.entries == w.entries
    ensures a.entries == c.entries
  {
    NewestKeys(max, stamp, a, c, u, w);
    forall k | k in a.entries.Keys
      ensures a.entries[k] == c.entries[k]
    {
      assert k in c.entries.Keys;
    }
  }

  /**
   * Logs of any length: when the store keeps as many operations as each log gives back, and the logs were written in
   * chain order without repeats, each paymaster event with or after its EntryPoint event, a restart gives exactly the
   * store that never stopping would have given, whatever follows.
   */
  lemma {:induction false} RestartRetains(entryCodec: Codec<EntryPointEvent>, postCodec: Codec<PaymasterEvent>,
      stamp: string -> Stamp, bs: seq<Batch>, more: seq<Batch>, n: nat)
    requires LoggedInOrder(stamp, bs) && StampedByTime(entryCodec, EntryStamp) && StampedByTime(postCodec, PostStamp)
    requires Paired(AllEntries(bs + more), AllPosts(bs + more)) && AllStamped(stamp, bs + more)
    requires Apart(stamp, IngestBatches(bs + more).entries.Keys)
    ensures
      var r := Restored(entryCodec, postCodec, AllEntries(bs), AllPosts(bs), n);
      IngestAllBounded(n, [r] + more).entries == IngestAllBounded(n, bs + more).entries
  {
    var r := Restored(entryCodec, postCodec, AllEntries(bs), AllPosts(bs), n);
    RestoredLast(entryCodec, postCodec, stamp, bs, n);
    RestoredWithin(entryCodec, postCodec, bs, more, n);
    RestoredWithin(entryCodec, postCodec, bs, [], n);
    assert [r] + [] == [r] && bs + [] == bs;
    RestartStamped(stamp, r, bs, more);
    KeysWithin([r] + more, bs + more);
    ApartWithin(stamp, IngestBatches([r] + more).entries.Keys, IngestBatches(bs + more).entries.Keys);
    BoundedNewest(n, stamp, [r] + more);
    BoundedNewest(n, stamp, bs + more);
    if |AllEntries(bs)| <= n {
      AllBack(stamp, bs, more, r, n);
      SameSelection(n, stamp, IngestAllBounded(n, [r] + more), IngestAllBounded(n, bs + more),
                    IngestBatches([r] + more), IngestBatches(bs + more));
    } else {
      NewestComeBack(stamp, bs, more, r, n, IngestAllBounded(n, [r] + more));
      NewestUnique(n, stamp, IngestAllBounded(n, [r] + more), IngestAllBounded(n, bs + more), IngestBatches(bs + more));
    }
  }
}
