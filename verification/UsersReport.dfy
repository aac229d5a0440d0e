/** The admin users endpoint: the join computed from the live stores. */
module UsersReport {
  import opened Wrappers
  import opened Sequences
  import opened Sorting
  import opened JsMaps
  import opened Text
  import opened OpRecords
  import opened OpMetrics
  import opened UsersJoin
  import OpStore
  import T = Telemetry

  function OwnerRowOf(byKey: JsMap<string, SenderTotals>): T.OwnerListing -> OwnerRow {
    (o: T.OwnerListing) => OwnerRow(o.owner, o.firstSeenMs, o.lastSeenMs, o.senders,
        RolledUp(byKey, o.senders, o.owner))
  }

  predicate OwnerRowLater(a: OwnerRow, b: OwnerRow) {
    b.lastSeenMs <= a.lastSeenMs
  }

  /** The two parts of the report, for retained operations and telemetry indexes. */
  function SenderReport(bigInt: Parser, us: seq<Summary>, x: T.Index): seq<SenderRow>
    requires x.senders.Valid()
  {
    JoinSenders(SenderRows(bigInt, us), T.SenderListings(x))
  }

  function OwnerReport(bigInt: Parser, us: seq<Summary>, x: T.Index): seq<OwnerRow> {
    Sort(OwnerRowLater, Map(OwnerRowOf(ByKey(MetricsKey(), SenderRows(bigInt, us))), T.OwnerListings(x)))
  }

  lemma {:induction false} SortedImage<A, B>(leq: (B, B) -> bool, f: A -> B, s: seq<A>, y: B)
    ensures y in Sort(leq, Map(f, s)) <==> exists i :: 0 <= i < |s| && y == f(s[i])
  {
    SortMember(leq, Map(f, s), y);
    if i :| 0 <= i < |s| && y == f(s[i]) {
      assert Map(f, s)[i] == y;
    }
  }

  lemma {:induction false} SortedImageKeys<A, B>(leq: (B, B) -> bool, f: A -> B, s: seq<A>, keyA: A -> string,
      keyB: B -> string)
    requires KeysDiffer(keyA, s)
    requires forall i :: 0 <= i < |s| ==> keyB(f(s[i])) == keyA(s[i])
    ensures KeysDiffer(keyB, Sort(leq, Map(f, s)))
  {
    SortKeys(leq, keyB, Map(f, s));
  }

  // ---- The sender part

  /** One row for each sender that has operations or was seen, with all that either side knows, the latest first. */
  ghost predicate SendersExact(bigInt: Parser, us: seq<Summary>, x: T.Index, rows: seq<SenderRow>) {
    && Sorted(RecentFirst, rows)
    && KeysDiffer(RowKey(), rows)
    && (forall k :: k in Map(RowKey(), rows) <==> k in SenderKeys(us) || k in x.senders.entries)
    && (forall r :: r in rows ==> r == JoinRow(RowKey()(r), SenderTable(bigInt, us).Get(RowKey()(r)),
        x.senders.Get(RowKey()(r))))
  }

  lemma {:induction false} IndexMember<V>(key: V -> string, vs: seq<V>, k: string)
    requires KeysDiffer(key, vs)
    ensures k in Map(key, vs) <==> ByKey(key, vs).Get(k).Some?
  {
    ByKeyKeys(key, vs);
  }

  lemma {:induction false} RowOfKey(bigInt: Parser, us: seq<Summary>, x: T.Index, k: string)
    requires T.Keyed(x)
    ensures
      var ms, ts := SenderRows(bigInt, us), T.SenderListings(x);
      && KeysDiffer(MetricsKey(), ms) && KeysDiffer(TelemetryKey(), ts)
      && RowAt(ms, ts)(k) == JoinRow(k, SenderTable(bigInt, us).Get(k), x.senders.Get(k))
      && (k in RowKeys(ms, ts) <==> k in SenderKeys(us) || k in x.senders.entries)
      && (k in RowKeys(ms, ts) ==> RowKey()(RowAt(ms, ts)(k)) == k)
  {
    var ms, ts := SenderRows(bigInt, us), T.SenderListings(x);
    MetricsDistinct(bigInt, us);
    TelemetryDistinct(x);
    RowsByKey(bigInt, us, k);
    TableRows(bigInt, us);
    IndexOfTable(T.SenderLater, TelemetryKey(), x.senders, ts, k);
    RowKeysAre(ms, ts, k);
    IndexMember(MetricsKey(), ms, k);
    IndexMember(TelemetryKey(), ts, k);
    if k in RowKeys(ms, ts) {
      KeyOfRow(ms, ts, k);
    }
  }

  lemma {:induction false} RowInReport(bigInt: Parser, us: seq<Summary>, x: T.Index, k: string)
    requires T.Keyed(x) && (k in SenderKeys(us) || k in x.senders.entries)
    ensures k in Map(RowKey(), SenderReport(bigInt, us, x))
  {
    var ms, ts, rows := SenderRows(bigInt, us), T.SenderListings(x), SenderReport(bigInt, us, x);
    RowOfKey(bigInt, us, x, k);
    RowPresent(ms, ts, k);
    var i :| 0 <= i < |rows| && rows[i] == RowAt(ms, ts)(k);
    assert Map(RowKey(), rows)[i] == k;
  }

  lemma {:induction false} ReportedRow(bigInt: Parser, us: seq<Summary>, x: T.Index, r: SenderRow)
    requires T.Keyed(x) && r in SenderReport(bigInt, us, x)
    ensures
      var k := RowKey()(r);
      && (k in SenderKeys(us) || k in x.senders.entries)
      && r == JoinRow(k, SenderTable(bigInt, us).Get(k), x.senders.Get(k))
  {
    var ms, ts := SenderRows(bigInt, us), T.SenderListings(x);
    var rows := Map(RowAt(ms, ts), RowKeys(ms, ts));
    SortMember(RecentFirst, rows, r);
    var i :| 0 <= i < |rows| && rows[i] == r;
    assert RowKeys(ms, ts)[i] in RowKeys(ms, ts);
    RowOfKey(bigInt, us, x, RowKeys(ms, ts)[i]);
  }

  lemma {:induction false} SendersSorted(bigInt: Parser, us: seq<Summary>, x: T.Index)
    requires T.Keyed(x)
    ensures Sorted(RecentFirst, SenderReport(bigInt, us, x)) && KeysDiffer(RowKey(), SenderReport(bigInt, us, x))
  {
    var ms, ts := SenderRows(bigInt, us), T.SenderListings(x);
    MetricsDistinct(bigInt, us);
    TelemetryDistinct(x);
    NothingInvented(ms, ts);
    SortSorted(RecentFirst, Map(RowAt(ms, ts), RowKeys(ms, ts)));
  }

  lemma {:induction false} SendersKnown(bigInt: Parser, us: seq<Summary>, x: T.Index, rows: seq<SenderRow>, k: string)
    requires T.Keyed(x) && rows == SenderReport(bigInt, us, x)
    ensures k in Map(RowKey(), rows) <==> k in SenderKeys(us) || k in x.senders.entries
  {
    hide SenderReport, SenderTable, JoinRow, SenderKeys, RowKey, T.Keyed;
    if k in Map(RowKey(), rows) {
      var i :| 0 <= i < |rows| && Map(RowKey(), rows)[i] == k;
      ReportedRow(bigInt, us, x, rows[i]);
    } else if k in SenderKeys(us) || k in x.senders.entries {
      RowInReport(bigInt, us, x, k);
    }
  }

  lemma {:induction false} AllSenders(bigInt: Parser, us: seq<Summary>, x: T.Index, rows: seq<SenderRow>)
    requires T.Keyed(x) && rows == SenderReport(bigInt, us, x)
    ensures forall r :: r in rows ==> r == JoinRow(RowKey()(r), SenderTable(bigInt, us).Get(RowKey()(r)),
        x.senders.Get(RowKey()(r)))
    ensures forall k :: k in Map(RowKey(), rows) <==> k in SenderKeys(us) || k in x.senders.entries
  {
    hide SenderReport, SenderTable, JoinRow, SenderKeys, RowKey, T.Keyed;
    forall r | r in rows
      ensures r == JoinRow(RowKey()(r), SenderTable(bigInt, us).Get(RowKey()(r)), x.senders.Get(RowKey()(r)))
    {
      ReportedRow(bigInt, us, x, r);
    }
    forall k
      ensures k in Map(RowKey(), rows) <==> k in SenderKeys(us) || k in x.senders.entries
    {
      SendersKnown(bigInt, us, x, rows, k);
    }
  }

  lemma {:induction false} ReportedSenders(bigInt: Parser, us: seq<Summary>, x: T.Index, rows: seq<SenderRow>)
    requires T.Keyed(x) && rows == SenderReport(bigInt, us, x)
    ensures SendersExact(bigInt, us, x, rows)
  {
    SendersSorted(bigInt, us, x);
    AllSenders(bigInt, us, x, rows);
    hide *;
  }

  // ---- The owner part

  function OwnerKey(): OwnerRow -> string {
    (r: OwnerRow) => ToLower(r.owner)
  }

  /** The owner's first spelling and times, the senders some heartbeat named with it, and the totals of their
      operations. */
  ghost predicate OwnerExact(bigInt: Parser, us: seq<Summary>, history: seq<T.Beat>, k: string, r: OwnerRow) {
    && T.Replay(history).owners.Get(k) == Some(T.OwnerSeen(r.owner, r.firstSeenMs, r.lastSeenMs))
    && Distinct(Map(ToLower, r.senders))
    && (forall s :: s in Map(ToLower, r.senders) <==> exists i :: 0 <= i < |history| && T.NamesBoth(history[i], k, s))
    && TotalsOf(bigInt, us, r.totals, Map(ToLower, r.senders))
  }

  /** One such row for each owner ever named, the latest first. */
  ghost predicate OwnersExact(bigInt: Parser, us: seq<Summary>, history: seq<T.Beat>, rows: seq<OwnerRow>) {
    && Sorted(OwnerRowLater, rows)
    && KeysDiffer(OwnerKey(), rows)
    && (forall k :: k in Map(OwnerKey(), rows) <==> k in T.Replay(history).owners.entries)
    && (forall r :: r in rows ==> OwnerExact(bigInt, us, history, OwnerKey()(r), r))
  }

  function RowFor(bigInt: Parser, us: seq<Summary>, x: T.Index): string -> OwnerRow {
    (k: string) => OwnerRowOf(ByKey(MetricsKey(), SenderRows(bigInt, us)))(T.Listing(x)(k))
  }

  lemma {:induction false} RowForListing(bigInt: Parser, us: seq<Summary>, x: T.Index, k: string)
    requires T.Keyed(x) && k in x.owners.entries
    ensures
      var r, listing := RowFor(bigInt, us, x)(k), T.Listing(x)(k);
      && x.owners.Get(k) == Some(T.OwnerSeen(r.owner, r.firstSeenMs, r.lastSeenMs))
      && OwnerKey()(r) == k
      && r.senders == listing.senders
      && r.totals == RolledUp(ByKey(MetricsKey(), SenderRows(bigInt, us)), listing.senders, listing.owner)
  {
  }

  lemma {:induction false} RowForExact(bigInt: Parser, us: seq<Summary>, history: seq<T.Beat>, k: string, r: OwnerRow)
    requires k in T.Replay(history).owners.entries && r == RowFor(bigInt, us, T.Replay(history))(k)
    ensures OwnerExact(bigInt, us, history, k, r) && OwnerKey()(r) == k
  {
    hide TotalsOf, RolledUp, SenderRows, RowFor, T.Replay, T.Listing;
    T.ReplayKeyed(history);
    RowForListing(bigInt, us, T.Replay(history), k);
    OwnerTotals(bigInt, us, history, k, T.Listing(T.Replay(history))(k));
  }

  /** A row of the report is the row of some owner's key, and every owner's row is in it. */
  lemma {:induction false} OwnerReportMember(bigInt: Parser, us: seq<Summary>, x: T.Index, r: OwnerRow)
    ensures r in OwnerReport(bigInt, us, x) <==> exists i ::
        0 <= i < |x.owners.keys| && r == RowFor(bigInt, us, x)(x.owners.keys[i])
  {
    hide SenderRows, T.Listing, Sort;
    var f, g := OwnerRowOf(ByKey(MetricsKey(), SenderRows(bigInt, us))), T.Listing(x);
    var listings := T.OwnerListings(x);
    SortedImage(OwnerRowLater, f, listings, r);
    if i :| 0 <= i < |x.owners.keys| && r == RowFor(bigInt, us, x)(x.owners.keys[i]) {
      SortedImage(T.OwnerLater, g, x.owners.keys, g(x.owners.keys[i]));
      var j :| 0 <= j < |listings| && listings[j] == g(x.owners.keys[i]);
      assert r == f(listings[j]);
    }
    if j :| 0 <= j < |listings| && r == f(listings[j]) {
      SortedImage(T.OwnerLater, g, x.owners.keys, listings[j]);
    }
  }

  function ListingKey(): T.OwnerListing -> string {
    (o: T.OwnerListing) => ToLower(o.owner)
  }

  function Same(): string -> string {
    (k: string) => k
  }

  lemma {:induction false} OwnerReportKeys(bigInt: Parser, us: seq<Summary>, x: T.Index)
    requires T.Keyed(x)
    ensures KeysDiffer(OwnerKey(), OwnerReport(bigInt, us, x))
  {
    hide SenderRows, Sort;
    forall i | 0 <= i < |x.owners.keys|
      ensures ListingKey()(T.Listing(x)(x.owners.keys[i])) == Same()(x.owners.keys[i])
    {
      assert x.owners.keys[i] in x.owners.entries;
    }
    SortedImageKeys(T.OwnerLater, T.Listing(x), x.owners.keys, Same(), ListingKey());
    SortedImageKeys(OwnerRowLater, OwnerRowOf(ByKey(MetricsKey(), SenderRows(bigInt, us))), T.OwnerListings(x),
        ListingKey(), OwnerKey());
  }

  lemma {:induction false} ReportedOwner(bigInt: Parser, us: seq<Summary>, history: seq<T.Beat>, r: OwnerRow)
    requires r in OwnerReport(bigInt, us, T.Replay(history))
    ensures OwnerKey()(r) in T.Replay(history).owners.entries && OwnerExact(bigInt, us, history, OwnerKey()(r), r)
  {
    hide OwnerExact, OwnerReport, RowFor, T.Replay;
    var x := T.Replay(history);
    T.ReplayKeyed(history);
    OwnerReportMember(bigInt, us, x, r);
    var i :| 0 <= i < |x.owners.keys| && r == RowFor(bigInt, us, x)(x.owners.keys[i]);
    assert x.owners.keys[i] in x.owners.entries;
    RowForExact(bigInt, us, history, x.owners.keys[i], r);
  }

  lemma {:induction false} OwnerInReport(bigInt: Parser, us: seq<Summary>, history: seq<T.Beat>, k: string)
    requires k in T.Replay(history).owners.entries
    ensures k in Map(OwnerKey(), OwnerReport(bigInt, us, T.Replay(history)))
  {
    hide OwnerExact, OwnerReport, RowFor, T.Replay;
    var x := T.Replay(history);
    T.ReplayKeyed(history);
    var i :| 0 <= i < |x.owners.keys| && x.owners.keys[i] == k;
    OwnerReportMember(bigInt, us, x, RowFor(bigInt, us, x)(k));
    RowForExact(bigInt, us, history, k, RowFor(bigInt, us, x)(k));
    var rows := OwnerReport(bigInt, us, x);
    var j :| 0 <= j < |rows| && rows[j] == RowFor(bigInt, us, x)(k);
    assert Map(OwnerKey(), rows)[j] == k;
  }

  lemma {:induction false} OwnersSorted(bigInt: Parser, us: seq<Summary>, x: T.Index)
    requires T.Keyed(x)
    ensures Sorted(OwnerRowLater, OwnerReport(bigInt, us, x)) && KeysDiffer(OwnerKey(), OwnerReport(bigInt, us, x))
  {
    SortSorted(OwnerRowLater, Map(OwnerRowOf(ByKey(MetricsKey(), SenderRows(bigInt, us))), T.OwnerListings(x)));
    OwnerReportKeys(bigInt, us, x);
  }

  lemma {:induction false} OwnersKnown(bigInt: Parser, us: seq<Summary>, history: seq<T.Beat>, rows: seq<OwnerRow>,
      k: string)
    requires rows == OwnerReport(bigInt, us, T.Replay(history))
    ensures k in Map(OwnerKey(), rows) <==> k in T.Replay(history).owners.entries
  {
    hide OwnerExact, OwnerReport, OwnerKey, T.Replay;
    if k in Map(OwnerKey(), rows) {
      var i :| 0 <= i < |rows| && Map(OwnerKey(), rows)[i] == k;
      ReportedOwner(bigInt, us, history, rows[i]);
    } else if k in T.Replay(history).owners.entries {
      OwnerInReport(bigInt, us, history, k);
    }
  }

  lemma {:induction false} AllOwners(bigInt: Parser, us: seq<Summary>, history: seq<T.Beat>, rows: seq<OwnerRow>)
    requires rows == OwnerReport(bigInt, us, T.Replay(history))
    ensures forall k :: k in Map(OwnerKey(), rows) <==> k in T.Replay(history).owners.entries
    ensures forall r :: r in rows ==> OwnerExact(bigInt, us, history, OwnerKey()(r), r)
  {
    hide OwnerExact, OwnerReport, OwnerKey, T.Replay;
    forall k
      ensures k in Map(OwnerKey(), rows) <==> k in T.Replay(history).owners.entries
    {
      OwnersKnown(bigInt, us, history, rows, k);
    }
    forall r | r in rows
      ensures OwnerExact(bigInt, us, history, OwnerKey()(r), r)
    {
      ReportedOwner(bigInt, us, history, r);
    }
  }

  lemma {:induction false} OwnersAre(bigInt: Parser, us: seq<Summary>, history: seq<T.Beat>, rows: seq<OwnerRow>)
    requires Sorted(OwnerRowLater, rows) && KeysDiffer(OwnerKey(), rows)
    requires forall k :: k in Map(OwnerKey(), rows) <==> k in T.Replay(history).owners.entries
    requires forall r :: r in rows ==> OwnerExact(bigInt, us, history, OwnerKey()(r), r)
    ensures OwnersExact(bigInt, us, history, rows)
  {
    hide OwnerExact, OwnerKey, T.Replay, Sorted, KeysDiffer, OwnerRowLater;
  }

  lemma {:induction false} ReportedOwners(bigInt: Parser, us: seq<Summary>, history: seq<T.Beat>, rows: seq<OwnerRow>)
    requires rows == OwnerReport(bigInt, us, T.Replay(history))
    ensures OwnersExact(bigInt, us, history, rows)
  {
    hide OwnersExact, OwnerExact, OwnerReport, T.Replay;
    T.ReplayKeyed(history);
    OwnersSorted(bigInt, us, T.Replay(history));
    AllOwners(bigInt, us, history, rows);
    OwnersAre(bigInt, us, history, rows);
  }

  method OwnerRows(listings: seq<T.OwnerListing>, byKey: JsMap<string, SenderTotals>) returns (rows: seq<OwnerRow>)
    ensures rows == Map(OwnerRowOf(byKey), listings)
  {
    rows := [];
    for i := 0 to |listings|
      invariant rows == Map(OwnerRowOf(byKey), listings[..i])
    {
      var row := RollUp(listings[i], byKey);
      rows := rows + [row];
    }
  }

  /** The report loses nothing and invents nothing: each part has one exact row per sender and per owner. */
  method AdminUsers(store: OpStore.UserOpAnalyticsStore, telemetry: T.TelemetryStore)
    returns (owners: seq<OwnerRow>, senders: seq<SenderRow>)
    requires store.Valid() && telemetry.Valid()
    ensures T.Keyed(T.Replay(telemetry.history))
    ensures senders == SenderReport(store.bigInt, store.byHash.Values(), T.Replay(telemetry.history))
    ensures owners == OwnerReport(store.bigInt, store.byHash.Values(), T.Replay(telemetry.history))
    ensures SendersExact(store.bigInt, store.byHash.Values(), T.Replay(telemetry.history), senders)
    ensures OwnersExact(store.bigInt, store.byHash.Values(), telemetry.history, owners)
  {
    var senderMetrics := store.PerSenderMetrics();
    var telemetryOwners := telemetry.ListOwners();
    var telemetrySenders := telemetry.ListSenders();
    senders := JoinSenders(senderMetrics, telemetrySenders);
    owners := OwnerRows(telemetryOwners, ByKey(MetricsKey(), senderMetrics));
    owners := Sort(OwnerRowLater, owners);
    ReportedSenders(store.bigInt, store.byHash.Values(), T.Replay(telemetry.history), senders);
    ReportedOwners(store.bigInt, store.byHash.Values(), telemetry.history, owners);
  }
}
