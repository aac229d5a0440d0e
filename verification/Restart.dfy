/**
 * A restart of the monitor: the events persisted day by day are loaded back and fed to an empty store,
 * EntryPoint events first. The persisted order differs from the order of arrival and holds every repeat.
 */
module Restart {
  import opened Wrappers
  import opened Sequences
  import opened OpRecords
  import opened OpJoin
  import opened ChainRanges
  import opened DailyFiles
  import opened NdjsonDaily

  /** What two daily logs give back, asked for the last n records each, when every file fits the tail window. */
  function Restored(entryCodec: Codec<EntryPointEvent>, postCodec: Codec<PaymasterEvent>,
      entries: seq<EntryPointEvent>, posts: seq<PaymasterEvent>, n: nat): Batch {
    Batch(LastN(Sorting.Sort(ByDay(entryCodec), entries), n), LastN(Sorting.Sort(ByDay(postCodec), posts), n))
  }

  lemma {:induction false} SortedElements<T>(leq: (T, T) -> bool, s: seq<T>)
    ensures Elements(Sorting.Sort(leq, s)) == Elements(s) && |Sorting.Sort(leq, s)| == |s|
  {
    Sorting.SortElements(leq, s);
    forall x
      ensures x in Elements(Sorting.Sort(leq, s)) <==> x in Elements(s)
    {
      Sorting.SortMember(leq, s, x);
      assert x in Elements(s) <==> x in s;
      assert x in Elements(Sorting.Sort(leq, s)) <==> x in Sorting.Sort(leq, s);
    }
    assert Elements(Sorting.Sort(leq, s)) == Elements(s);
  }

  lemma {:induction false} RestoredSame(entryCodec: Codec<EntryPointEvent>, postCodec: Codec<PaymasterEvent>,
      bs: seq<Batch>, n: nat)
    requires |AllEntries(bs)| <= n && |AllPosts(bs)| <= n
    ensures SameEvents([Restored(entryCodec, postCodec, AllEntries(bs), AllPosts(bs), n)], bs)
  {
    SortedElements(ByDay(entryCodec), AllEntries(bs));
    SortedElements(ByDay(postCodec), AllPosts(bs));
    OneBatch(Restored(entryCodec, postCodec, AllEntries(bs), AllPosts(bs), n));
  }

  lemma {:induction false} ElementsAppend<T>(a: seq<T>, b: seq<T>)
    ensures Elements(a + b) == Elements(a) + Elements(b)
  {
  }

  lemma {:induction false} SameSnoc(a: seq<Batch>, c: seq<Batch>, b: Batch)
    requires SameEvents(a, c)
    ensures SameEvents(a + [b], c + [b])
  {
    AllSnoc(a, b);
    AllSnoc(c, b);
    ElementsAppend(AllEntries(a), b.entries);
    ElementsAppend(AllEntries(c), b.entries);
    ElementsAppend(AllPosts(a), b.posts);
    ElementsAppend(AllPosts(c), b.posts);
  }

  /** On a chain: the restored batch has exactly the events of the reads before, and is covered if and only if each
      paymaster event among them has its EntryPoint event among them. */
  lemma {:induction false} RestoredYields(entryCodec: Codec<EntryPointEvent>, postCodec: Codec<PaymasterEvent>,
      c: Chain, earlier: seq<Read>, r: Batch, n: nat)
    requires WellFormed(c)
    requires |AllEntries(ReadBatches(c, earlier))| <= n && |AllPosts(ReadBatches(c, earlier))| <= n
    requires r == Restored(entryCodec, postCodec, AllEntries(ReadBatches(c, earlier)),
        AllPosts(ReadBatches(c, earlier)), n)
    ensures Yields(c, [r], earlier)
    ensures Covered([r]) <==> forall p | p in c.postLogs && AnyPost(earlier, p) :: HasOp(c, earlier, p)
  {
    var bs := ReadBatches(c, earlier);
    RestoredSame(entryCodec, postCodec, bs, n);
    OrderedIff(c, earlier);
    forall e
      ensures e in AllEntries([r]) <==> EntryOf(c, earlier, e)
    {
      assert e in Elements(AllEntries([r])) <==> e in Elements(AllEntries(bs));
    }
    forall p
      ensures p in AllPosts([r]) <==> PostOf(c, earlier, p)
    {
      assert p in Elements(AllPosts([r])) <==> p in Elements(AllPosts(bs));
    }
    YieldedCovered(c, r, earlier);
  }

  lemma {:induction false} YieldedCovered(c: Chain, r: Batch, earlier: seq<Read>)
    requires WellFormed(c) && Yields(c, [r], earlier)
    ensures Covered([r]) <==> forall p | p in c.postLogs && AnyPost(earlier, p) :: HasOp(c, earlier, p)
  {
    OneBatch(r);
    OneBatchCovered(r);
    if forall p | p in c.postLogs && AnyPost(earlier, p) :: HasOp(c, earlier, p) {
      forall i | 0 <= i < |r.posts|
        ensures PostKey(r.posts[i]) in IndexEntries(r.entries)
      {
        assert r.posts[i] in AllPosts([r]);
        var p :| p in c.postLogs && AnyPost(earlier, p) && PostEvent(c, p) == r.posts[i];
        IndexedIff(c, [r], earlier, p);
      }
    }
    if Covered([r]) {
      forall p | p in c.postLogs && AnyPost(earlier, p)
        ensures HasOp(c, earlier, p)
      {
        assert PostOf(c, earlier, PostEvent(c, p));
        assert PostEvent(c, p) in AllPosts([r]);
        var i :| 0 <= i < |r.posts| && r.posts[i] == PostEvent(c, p);
        IndexedIff(c, [r], earlier, p);
      }
    }
  }

  lemma {:induction false} SameThrough(a: seq<Batch>, c: seq<Batch>, more: seq<Batch>)
    requires SameEvents(a, c)
    ensures SameEvents(a + more, c + more)
    decreases |more|
  {
    if more == [] {
      assert a + more == a && c + more == c;
    } else {
      var n := |more| - 1;
      SameThrough(a, c, more[..n]);
      assert a + more == (a + more[..n]) + [more[n]] && c + more == (c + more[..n]) + [more[n]];
      SameSnoc(a + more[..n], c + more[..n], more[n]);
    }
  }

  lemma {:induction false} LateSnoc(a: seq<Batch>, b: Batch, k: string)
    ensures Late(a + [b], k) <==> Late(a, k) || (HasPost(b.posts, k) && EntryAt(a + [b], k).None?)
  {
    assert (a + [b])[..|a|] == a;
  }

  /** One more batch makes no difference between two histories of the same events. */
  lemma {:induction false} LateStep(a: seq<Batch>, c: seq<Batch>, b: Batch, k: string)
    requires SameEvents(a, c) && Paired(AllEntries(c + [b]), AllPosts(c + [b]))
    ensures (Late(a + [b], k) <==> Late(c + [b], k)) <==> (Late(a, k) <==> Late(c, k))
    ensures Paired(AllEntries(c), AllPosts(c))
  {
    assert (c + [b])[..|c|] == c && (a + [b])[..|a|] == a;
    PairedPrefix(c + [b]);
    SameSnoc(a, c, b);
    PairedWithin(a + [b], c + [b]);
    PairedPrefix(a + [b]);
    SameEventsAt(a, c, k);
    SameEventsAt(a + [b], c + [b], k);
    LateFacts(a, k);
    LateFacts(c, k);
    FindsMore(c + [b], k);
    LateSnoc(a, b, k);
    LateSnoc(c, b, k);
  }

  lemma {:induction false} LateThrough(a: seq<Batch>, c: seq<Batch>, more: seq<Batch>, k: string)
    requires SameEvents(a, c) && Paired(AllEntries(c + more), AllPosts(c + more))
    ensures (Late(a + more, k) <==> Late(c + more, k)) <==> (Late(a, k) <==> Late(c, k))
    ensures Paired(AllEntries(c), AllPosts(c))
    decreases |more|
  {
    if more == [] {
      assert a + more == a && c + more == c;
    } else {
      var n := |more| - 1;
      assert a + more == (a + more[..n]) + [more[n]] && c + more == (c + more[..n]) + [more[n]];
      SameThrough(a, c, more[..n]);
      LateStep(a + more[..n], c + more[..n], more[n], k);
      LateThrough(a, c, more[..n], k);
    }
  }

  /** Reloaded, a paymaster event is late only when its EntryPoint event is not there at all. */
  lemma {:induction false} LateReloaded(r: Batch, k: string)
    requires Paired(r.entries, r.posts)
    ensures Late([r], k) <==> k in IndexPosts(r.posts) && k !in IndexEntries(r.entries)
    ensures EntryAt([r], k).Some? <==> k in IndexEntries(r.entries)
    ensures PostAt([r], k).Some? <==> k in IndexPosts(r.posts)
  {
    OneBatch(r);
    LateFacts([r], k);
    LateSnoc([], r, k);
    assert [] + [r] == [r];
    PostAtFacts([r], k);
    if HasPost(r.posts, k) {
      var i :| 0 <= i < |r.posts| && PostKey(r.posts[i]) == k;
      IndexHasPost(r.posts, r.posts[i]);
    }
  }

  /** An operation whose paymaster event was late although its EntryPoint event arrived. */
  ghost predicate Stuck(bs: seq<Batch>, k: string) {
    Late(bs, k) && k in IndexEntries(AllEntries(bs))
  }

  ghost predicate NoneStuck(bs: seq<Batch>) {
    forall k :: !Stuck(bs, k)
  }

  /** Restarted within the bound of the logs, the late events that remain are those without an EntryPoint event. */
  lemma {:induction false} RestartedLate(r: Batch, bs: seq<Batch>, more: seq<Batch>, k: string)
    requires SameEvents([r], bs) && Paired(AllEntries(bs + more), AllPosts(bs + more))
    ensures LateAlike([r] + more, bs + more, k) <==> !Stuck(bs, k)
  {
    LateThrough([r], bs, more, k);
    PairedWithin([r], bs);
    OneBatch(r);
    LateReloaded(r, k);
    SameEventsAt([r], bs, k);
    LateFacts(bs, k);
  }

  lemma {:induction false} RestartedAlike(r: Batch, bs: seq<Batch>, more: seq<Batch>)
    requires SameEvents([r], bs) && Paired(AllEntries(bs + more), AllPosts(bs + more))
    ensures SameLate([r] + more, bs + more) <==> NoneStuck(bs)
  {
    hide Stuck, LateAlike, Paired, SameEvents;
    if NoneStuck(bs) {
      forall k
        ensures LateAlike([r] + more, bs + more, k)
      {
        assert !Stuck(bs, k);
        RestartedLate(r, bs, more, k);
      }
    }
    if SameLate([r] + more, bs + more) {
      forall k
        ensures !Stuck(bs, k)
      {
        assert LateAlike([r] + more, bs + more, k);
        RestartedLate(r, bs, more, k);
      }
    }
  }

  /**
   * A restart, with logs of at most n events each and whatever follows: the records are those that never stopping would
   * have given if and only if no operation has a late paymaster event although its EntryPoint event arrived.
   */
  lemma {:induction false} RestartLosesNothing(entryCodec: Codec<EntryPointEvent>, postCodec: Codec<PaymasterEvent>,
      bs: seq<Batch>, more: seq<Batch>, n: nat)
    requires |AllEntries(bs)| <= n && |AllPosts(bs)| <= n
    requires Paired(AllEntries(bs + more), AllPosts(bs + more)) && GasUsed(AllEntries(bs + more))
    ensures IngestBatches([Restored(entryCodec, postCodec, AllEntries(bs), AllPosts(bs), n)] + more).entries
         == IngestBatches(bs + more).entries
      <==> NoneStuck(bs)
    ensures Covered(bs) ==> NoneStuck(bs)
  {
    if Covered(bs) {
      forall k
        ensures !Stuck(bs, k)
      {
        CoveredNotLate(bs, k);
      }
    }
    hide NoneStuck, SameLate, Paired, GasUsed, SameEvents, IngestBatches;
    var r := Restored(entryCodec, postCodec, AllEntries(bs), AllPosts(bs), n);
    RestoredSame(entryCodec, postCodec, bs, n);
    SameThrough([r], bs, more);
    SameLateIff([r] + more, bs + more);
    RestartedAlike(r, bs, more);
  }

  lemma {:induction false} IndexedStays(bs: seq<Batch>, more: seq<Batch>, k: string)
    requires Paired(AllEntries(bs + more), AllPosts(bs + more)) && EntryAt(bs, k).Some?
    ensures EntryAt(bs + more, k) == EntryAt(bs, k)
    ensures !Late(bs, k) ==> !Late(bs + more, k)
    decreases |more|
  {
    if more == [] {
      assert bs + more == bs;
    } else {
      var n := |more| - 1;
      assert (bs + more)[..|bs + more| - 1] == bs + more[..n];
      PairedPrefix(bs + more);
      IndexedStays(bs, more[..n], k);
      FindsMore(bs + more, k);
    }
  }

  /** Within the bound of the logs a restart gives the join of every operation whose EntryPoint event was read before,
      whatever was partial, and it stays the join. */
  lemma {:induction false} RestartRepairs(entryCodec: Codec<EntryPointEvent>, postCodec: Codec<PaymasterEvent>,
      bs: seq<Batch>, more: seq<Batch>, n: nat, k: string)
    requires |AllEntries(bs)| <= n && |AllPosts(bs)| <= n
    requires Paired(AllEntries(bs + more), AllPosts(bs + more)) && EntryAt(bs, k).Some?
    ensures IngestBatches([Restored(entryCodec, postCodec, AllEntries(bs), AllPosts(bs), n)] + more).Get(k)
      == Some(Joined(EntryAt(bs, k).value, PostAt(bs + more, k)))
  {
    var r := Restored(entryCodec, postCodec, AllEntries(bs), AllPosts(bs), n);
    RestoredSame(entryCodec, postCodec, bs, n);
    SameThrough([r], bs, more);
    PairedWithin([r] + more, bs + more);
    LateThrough([r], bs, more, k);
    SameEventsAt([r], bs, k);
    SameEventsAt([r] + more, bs + more, k);
    PairedWithin([r], bs);
    OneBatch(r);
    LateReloaded(r, k);
    IndexedStays([r], more, k);
    RecordIs([r] + more, k);
  }

  /** On a chain: an operation both of whose events were read, in whatever order, has the join as its record after a
      restart. */
  lemma {:induction false} RestartCompletes(entryCodec: Codec<EntryPointEvent>, postCodec: Codec<PaymasterEvent>,
      c: Chain, earlier: seq<Read>, n: nat, e: EntryLog, p: PostLog)
    requires WellFormed(c) && SameOp(e, p)
    requires |AllEntries(ReadBatches(c, earlier))| <= n && |AllPosts(ReadBatches(c, earlier))| <= n
    requires e in c.entryLogs && p in c.postLogs && AnyEntry(earlier, e) && AnyPost(earlier, p)
    ensures
      var bs := ReadBatches(c, earlier);
      IngestBatches([Restored(entryCodec, postCodec, AllEntries(bs), AllPosts(bs), n)]).Get(PostKey(PostEvent(c, p)))
        == Some(Joined(ChainEvent(c, e), Some(PostEvent(c, p))))
  {
    hide *;
    var bs := ReadBatches(c, earlier);
    OrderedIff(c, earlier);
    EventsFound(c, bs, earlier, e, p);
    var r := Restored(entryCodec, postCodec, AllEntries(bs), AllPosts(bs), n);
    assert bs + [] == bs && [r] + [] == [r];
    RestartRepairs(entryCodec, postCodec, bs, [], n, PostKey(PostEvent(c, p)));
  }

  /** What is restored is part of what was written. */
  lemma {:induction false} RestoredWithin(entryCodec: Codec<EntryPointEvent>, postCodec: Codec<PaymasterEvent>,
      bs: seq<Batch>, more: seq<Batch>, n: nat)
    ensures Within([Restored(entryCodec, postCodec, AllEntries(bs), AllPosts(bs), n)] + more, bs + more)
    decreases |more|
  {
    var r := Restored(entryCodec, postCodec, AllEntries(bs), AllPosts(bs), n);
    if more == [] {
      assert [r] + more == [r] && bs + more == bs;
      OneBatch(r);
      LastElements(ByDay(entryCodec), AllEntries(bs), n);
      LastElements(ByDay(postCodec), AllPosts(bs), n);
    } else {
      var k := |more| - 1;
      RestoredWithin(entryCodec, postCodec, bs, more[..k], n);
      assert [r] + more == ([r] + more[..k]) + [more[k]];
      assert bs + more == (bs + more[..k]) + [more[k]];
      WithinSnoc([r] + more[..k], bs + more[..k], more[k]);
    }
  }

  lemma {:induction false} LastElements<T>(leq: (T, T) -> bool, s: seq<T>, n: nat)
    ensures Elements(LastN(Sorting.Sort(leq, s), n)) <= Elements(s)
  {
    SortedElements(leq, s);
    forall x | x in Elements(LastN(Sorting.Sort(leq, s), n))
      ensures x in Elements(s)
    {
      assert x in LastN(Sorting.Sort(leq, s), n);
      assert x in Sorting.Sort(leq, s);
      assert x in Elements(Sorting.Sort(leq, s));
    }
  }

  lemma {:induction false} WithinSnoc(a: seq<Batch>, c: seq<Batch>, b: Batch)
    requires Within(a, c)
    ensures Within(a + [b], c + [b])
  {
    AllSnoc(a, b);
    AllSnoc(c, b);
    ElementsAppend(AllEntries(a), b.entries);
    ElementsAppend(AllEntries(c), b.entries);
    ElementsAppend(AllPosts(a), b.posts);
    ElementsAppend(AllPosts(c), b.posts);
  }

  /**
   * However many events the logs hold and whatever came before and after: a restart that goes on gives the records that
   * never stopping would have given if and only if every operation has the same lateness, and all of its events come
   * back or are read again unless its paymaster event is late.
   */
  lemma {:induction false} RestartIff(entryCodec: Codec<EntryPointEvent>, postCodec: Codec<PaymasterEvent>,
      bs: seq<Batch>, more: seq<Batch>, n: nat)
    requires Paired(AllEntries(bs + more), AllPosts(bs + more)) && GasUsed(AllEntries(bs + more))
    ensures
      var after := [Restored(entryCodec, postCodec, AllEntries(bs), AllPosts(bs), n)] + more;
      IngestBatches(after).entries == IngestBatches(bs + more).entries <==> forall k :: Gives(after, bs + more, k)
  {
    RestoredWithin(entryCodec, postCodec, bs, more, n);
    SameRecordsIff([Restored(entryCodec, postCodec, AllEntries(bs), AllPosts(bs), n)] + more, bs + more);
  }

  /** What has to be among the last n records of the two logs for one operation's record to come back. */
  ghost predicate ComesBack(bs: seq<Batch>, r: Batch, k: string) {
    if Late(bs, k) then k in IndexPosts(r.posts) && k !in IndexEntries(r.entries)
    else
      && (k in IndexEntries(AllEntries(bs)) ==> k in IndexEntries(r.entries))
      && (k in IndexPosts(AllPosts(bs)) ==> k in IndexPosts(r.posts))
  }

  lemma {:induction false} ComesBackIff(bs: seq<Batch>, r: Batch, k: string)
    requires Within([r], bs) && Paired(AllEntries(bs), AllPosts(bs))
    ensures Gives([r], bs, k) <==> ComesBack(bs, r, k)
  {
    PairedWithin([r], bs);
    WithinAt([r], bs, k);
    OneBatch(r);
    LateReloaded(r, k);
    LateFacts(bs, k);
    hide Late, AllEntries, AllPosts, IndexEntries, IndexPosts, Paired, Within;
  }

  lemma {:induction false} CutLoses<T>(leq: (T, T) -> bool, s: seq<T>, n: nat)
    requires Distinct(s)
    ensures Elements(LastN(Sorting.Sort(leq, s), n)) == Elements(s) <==> |s| <= n
  {
    var t := LastN(Sorting.Sort(leq, s), n);
    SortedElements(leq, s);
    Sorting.SortDistinct(leq, s);
    assert Distinct(t);
    DistinctCardinality(s);
    DistinctCardinality(t);
  }

  /**
   * Reloading gives the records back exactly when each operation's comes back; from logs without repeats, and when no
   * operation has a late paymaster event although its EntryPoint event arrived, that is when each log holds at most n.
   */
  lemma {:induction false} ReloadIff(entryCodec: Codec<EntryPointEvent>, postCodec: Codec<PaymasterEvent>,
      bs: seq<Batch>, n: nat)
    requires Paired(AllEntries(bs), AllPosts(bs)) && GasUsed(AllEntries(bs))
    ensures
      var r := Restored(entryCodec, postCodec, AllEntries(bs), AllPosts(bs), n);
      && (IngestBatches([r]).entries == IngestBatches(bs).entries <==> forall k :: ComesBack(bs, r, k))
      && (Distinct(AllEntries(bs)) && Distinct(AllPosts(bs)) && NoneStuck(bs) ==>
            ((forall k :: ComesBack(bs, r, k)) <==> |AllEntries(bs)| <= n && |AllPosts(bs)| <= n))
  {
    var r := Restored(entryCodec, postCodec, AllEntries(bs), AllPosts(bs), n);
    assert [r] + [] == [r] && bs + [] == bs;
    RestoredWithin(entryCodec, postCodec, bs, [], n);
    RestartIff(entryCodec, postCodec, bs, [], n);
    AllComeBack(bs, r);
    OneBatch(r);
    if Distinct(AllEntries(bs)) && Distinct(AllPosts(bs)) && NoneStuck(bs) {
      NoneStuckComeBack(bs, r);
      CutLoses(ByDay(entryCodec), AllEntries(bs), n);
      CutLoses(ByDay(postCodec), AllPosts(bs), n);
    }
  }

  lemma {:induction false} AllComeBack(bs: seq<Batch>, r: Batch)
    requires Within([r], bs) && Paired(AllEntries(bs), AllPosts(bs))
    ensures (forall k :: Gives([r], bs, k)) <==> forall k :: ComesBack(bs, r, k)
  {
    forall k
      ensures Gives([r], bs, k) <==> ComesBack(bs, r, k)
    {
      ComesBackIff(bs, r, k);
    }
  }

  lemma {:induction false} SameComesBack(bs: seq<Batch>, r: Batch, k: string)
    requires SameEvents([r], bs) && Paired(AllEntries(bs), AllPosts(bs)) && !Stuck(bs, k)
    ensures ComesBack(bs, r, k)
  {
    OneBatch(r);
    PairedWithin([r], bs);
    SameEventsAt([r], bs, k);
    LateReloaded(r, k);
    LateFacts(bs, k);
  }

  lemma {:induction false} EntryComesBack(bs: seq<Batch>, r: Batch, e: EntryPointEvent)
    requires Within([r], bs) && Paired(AllEntries(bs), AllPosts(bs)) && e in AllEntries(bs)
    requires ComesBack(bs, r, EntryKey(e)) && !Stuck(bs, EntryKey(e))
    ensures e in r.entries
  {
    IndexHasKey(AllEntries(bs), e);
    ReturnedEvents(bs, r, EntryKey(e));
  }

  lemma {:induction false} PostComesBack(bs: seq<Batch>, r: Batch, p: PaymasterEvent)
    requires Within([r], bs) && Paired(AllEntries(bs), AllPosts(bs)) && p in AllPosts(bs)
    requires ComesBack(bs, r, PostKey(p))
    ensures p in r.posts
  {
    IndexHasPost(AllPosts(bs), p);
    ReturnedEvents(bs, r, PostKey(p));
  }

  /** With none stuck, everything comes back exactly when every event does. */
  lemma {:induction false} NoneStuckComeBack(bs: seq<Batch>, r: Batch)
    requires Within([r], bs) && Paired(AllEntries(bs), AllPosts(bs)) && NoneStuck(bs)
    ensures (forall k :: ComesBack(bs, r, k)) <==> SameEvents([r], bs)
  {
    hide ComesBack, Stuck, Paired, AllEntries, AllPosts;
    OneBatch(r);
    if SameEvents([r], bs) {
      forall k
        ensures ComesBack(bs, r, k)
      {
        assert !Stuck(bs, k);
        SameComesBack(bs, r, k);
      }
    }
    if forall k :: ComesBack(bs, r, k) {
      forall e | e in AllEntries(bs)
        ensures e in r.entries
      {
        assert ComesBack(bs, r, EntryKey(e)) && !Stuck(bs, EntryKey(e));
        EntryComesBack(bs, r, e);
      }
      forall p | p in AllPosts(bs)
        ensures p in r.posts
      {
        assert ComesBack(bs, r, PostKey(p));
        PostComesBack(bs, r, p);
      }
    }
  }

  /** An operation's event in the reloaded part is the one there is. */
  lemma {:induction false} ReturnedEvents(bs: seq<Batch>, r: Batch, k: string)
    requires Within([r], bs) && Paired(AllEntries(bs), AllPosts(bs))
    ensures k in IndexEntries(r.entries) ==> forall e :: e in AllEntries(bs) && EntryKey(e) == k ==> e in r.entries
    ensures k in IndexPosts(r.posts) ==> forall p :: p in AllPosts(bs) && PostKey(p) == k ==> p in r.posts
  {
    OneBatch(r);
    PairedWithin([r], bs);
    WithinAt([r], bs, k);
    EntryAtFacts(bs, k);
    EntryAtFacts([r], k);
    PostAtFacts(bs, k);
    PostAtFacts([r], k);
  }
}
