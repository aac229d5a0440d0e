/** The users report: per-sender metrics outer-joined with telemetry, and rolled up per owner. */
module UsersJoin {
  import opened Wrappers
  import opened Sequences
  import opened Sorting
  import opened JsMaps
  import opened Text
  import opened OpRecords
  import opened OpMetrics
  import T = Telemetry

  datatype SenderRow = SenderRow(
    sender: string, total: nat, succeeded: nat, failed: nat, lastOpTs: int, gasWei: int, feeWei: int,
    firstSeenMs: Option<int>, lastSeenMs: Option<int>, owner: Option<string>)

  datatype OwnerRow = OwnerRow(owner: string, firstSeenMs: int, lastSeenMs: int, senders: seq<string>,
      totals: SenderTotals)

  // ---- Indexing by key

  ghost predicate KeysDiffer<V>(key: V -> string, vs: seq<V>) {
    forall i, j :: 0 <= i < j < |vs| ==> key(vs[i]) != key(vs[j])
  }

  /** `new Map` of key-value pairs: a later pair overwrites an earlier one. */
  function ByKey<V>(key: V -> string, vs: seq<V>): (r: JsMap<string, V>)
    ensures r.Valid()
  {
    if vs == [] then Empty() else ByKey(key, vs[..|vs| - 1]).Set(key(vs[|vs| - 1]), vs[|vs| - 1])
  }

  lemma {:induction false} ByKeyKeys<V>(key: V -> string, vs: seq<V>)
    requires KeysDiffer(key, vs)
    ensures ByKey(key, vs).keys == Map(key, vs)
    decreases |vs|
  {
    if vs != [] {
      var n := |vs| - 1;
      ByKeyKeys(key, vs[..n]);
      assert key(vs[n]) !in ByKey(key, vs[..n]).keys;
      assert Map(key, vs) == Map(key, vs[..n]) + [key(vs[n])];
    }
  }

  lemma {:induction false} ByKeyGet<V>(key: V -> string, vs: seq<V>, i: nat)
    requires KeysDiffer(key, vs) && i < |vs|
    ensures ByKey(key, vs).Get(key(vs[i])) == Some(vs[i])
    decreases |vs|
  {
    var n := |vs| - 1;
    if i < n {
      ByKeyGet(key, vs[..n], i);
      assert key(vs[i]) != key(vs[n]);
    }
  }

  lemma {:induction false} ByKeyEntries<V>(key: V -> string, vs: seq<V>)
    requires KeysDiffer(key, vs)
    ensures ByKey(key, vs).keys == Map(key, vs)
    ensures forall i :: 0 <= i < |vs| ==> ByKey(key, vs).Get(key(vs[i])) == Some(vs[i])
  {
    ByKeyKeys(key, vs);
    forall i | 0 <= i < |vs|
      ensures ByKey(key, vs).Get(key(vs[i])) == Some(vs[i])
    {
      ByKeyGet(key, vs, i);
    }
  }

  lemma {:induction false} ByKeyAbsent<V>(key: V -> string, vs: seq<V>, k: string)
    requires KeysDiffer(key, vs)
    requires forall i :: 0 <= i < |vs| ==> key(vs[i]) != k
    ensures ByKey(key, vs).Get(k) == None
  {
    ByKeyEntries(key, vs);
  }

  lemma {:induction false} SortKeys<V>(leq: (V, V) -> bool, key: V -> string, vs: seq<V>)
    requires KeysDiffer(key, vs)
    ensures KeysDiffer(key, Sort(leq, vs))
  {
    var r := Sort(leq, vs);
    assert Distinct(vs);
    SortDistinct(leq, vs);
    forall i, j | 0 <= i < j < |r|
      ensures key(r[i]) != key(r[j])
    {
      SortMember(leq, vs, r[i]);
      SortMember(leq, vs, r[j]);
      var a :| 0 <= a < |vs| && vs[a] == r[i];
      var b :| 0 <= b < |vs| && vs[b] == r[j];
    }
  }

  function MetricsKey(): SenderTotals -> string {
    (m: SenderTotals) => ToLower(m.sender)
  }

  function TelemetryKey(): T.SenderSeen -> string {
    (t: T.SenderSeen) => ToLower(t.sender)
  }

  function RowKey(): SenderRow -> string {
    (r: SenderRow) => ToLower(r.sender)
  }

  // ---- Sender rows

  /** `new Set` of two key lists: every key once, in the order of first occurrence. */
  function Dedupe(s: seq<string>): seq<string> {
    if s == [] then [] else T.AddTo(Dedupe(s[..|s| - 1]), s[|s| - 1])
  }

  lemma {:induction false} DedupeMember(s: seq<string>, k: string)
    ensures Distinct(Dedupe(s))
    ensures k in Dedupe(s) <==> k in s
    decreases |s|
  {
    if s != [] {
      DedupeMember(s[..|s| - 1], k);
      assert s == s[..|s| - 1] + [s[|s| - 1]];
    }
  }

  function Fresh(a: seq<string>): string -> bool {
    (k: string) => k !in a
  }

  lemma {:induction false} DedupeUnion(a: seq<string>, b: seq<string>)
    requires Distinct(a) && Distinct(b)
    ensures Dedupe(a + b) == a + Filter(Fresh(a), b)
    decreases |a| + |b|
  {
    if b != [] {
      var n := |b| - 1;
      DedupeUnion(a, b[..n]);
      assert (a + b)[..|a| + n] == a + b[..n];
      FilterMember(Fresh(a), b[..n], b[n]);
    } else if a != [] {
      var n := |a| - 1;
      DedupeUnion(a[..n], []);
      assert (a + b)[..n] == a[..n] + [];
    }
  }

  function JoinRow(k: string, m: Option<SenderTotals>, t: Option<T.SenderSeen>): SenderRow {
    var totals := m.GetOr(NoOps(k));
    SenderRow(
      if m.Some? then m.value.sender else if t.Some? then t.value.sender else k,
      totals.total, totals.succeeded, totals.failed, totals.lastOpTs, totals.gasWei, totals.feeWei,
      if t.Some? then Some(t.value.firstSeenMs) else None,
      if t.Some? then Some(t.value.lastSeenMs) else None,
      if t.Some? then t.value.owner else None)
  }

  function RowAt(ms: seq<SenderTotals>, ts: seq<T.SenderSeen>): string -> SenderRow {
    var byMetrics, byTelemetry := ByKey(MetricsKey(), ms), ByKey(TelemetryKey(), ts);
    (k: string) => JoinRow(k, byMetrics.Get(k), byTelemetry.Get(k))
  }

  function RowKeys(ms: seq<SenderTotals>, ts: seq<T.SenderSeen>): seq<string> {
    Dedupe(ByKey(MetricsKey(), ms).keys + ByKey(TelemetryKey(), ts).keys)
  }

  predicate RecentFirst(a: SenderRow, b: SenderRow) {
    b.lastOpTs < a.lastOpTs || (b.lastOpTs == a.lastOpTs && b.lastSeenMs.GetOr(0) <= a.lastSeenMs.GetOr(0))
  }

  /** The sender part of the report. */
  function JoinSenders(ms: seq<SenderTotals>, ts: seq<T.SenderSeen>): seq<SenderRow> {
    Sort(RecentFirst, Map(RowAt(ms, ts), RowKeys(ms, ts)))
  }

  lemma {:induction false} RowPresent(ms: seq<SenderTotals>, ts: seq<T.SenderSeen>, k: string)
    requires k in RowKeys(ms, ts)
    ensures RowAt(ms, ts)(k) in JoinSenders(ms, ts)
  {
    var ks := RowKeys(ms, ts);
    var rows := Map(RowAt(ms, ts), ks);
    var j :| 0 <= j < |ks| && ks[j] == k;
    assert rows[j] == RowAt(ms, ts)(k);
    SortMember(RecentFirst, rows, rows[j]);
  }

  lemma {:induction false} RowKeysAre(ms: seq<SenderTotals>, ts: seq<T.SenderSeen>, k: string)
    requires KeysDiffer(MetricsKey(), ms) && KeysDiffer(TelemetryKey(), ts)
    ensures k in RowKeys(ms, ts) <==> k in Map(MetricsKey(), ms) || k in Map(TelemetryKey(), ts)
  {
    ByKeyKeys(MetricsKey(), ms);
    ByKeyKeys(TelemetryKey(), ts);
    DedupeMember(Map(MetricsKey(), ms) + Map(TelemetryKey(), ts), k);
  }

  /** Every sender with operations has a row, with its metrics and whatever telemetry knows of it. */
  lemma {:induction false} MetricsKept(ms: seq<SenderTotals>, ts: seq<T.SenderSeen>, i: nat)
    requires KeysDiffer(MetricsKey(), ms) && KeysDiffer(TelemetryKey(), ts) && i < |ms|
    ensures
      var k := ToLower(ms[i].sender);
      JoinRow(k, Some(ms[i]), ByKey(TelemetryKey(), ts).Get(k)) in JoinSenders(ms, ts)
  {
    var k := MetricsKey()(ms[i]);
    assert Map(MetricsKey(), ms)[i] == k;
    RowKeysAre(ms, ts, k);
    RowPresent(ms, ts, k);
    ByKeyGet(MetricsKey(), ms, i);
  }

  /** Every sender seen by telemetry has a row, with its telemetry and whatever metrics know of it. */
  lemma {:induction false} TelemetryKept(ms: seq<SenderTotals>, ts: seq<T.SenderSeen>, i: nat)
    requires KeysDiffer(MetricsKey(), ms) && KeysDiffer(TelemetryKey(), ts) && i < |ts|
    ensures
      var k := ToLower(ts[i].sender);
      JoinRow(k, ByKey(MetricsKey(), ms).Get(k), Some(ts[i])) in JoinSenders(ms, ts)
  {
    var k := TelemetryKey()(ts[i]);
    assert Map(TelemetryKey(), ts)[i] == k;
    RowKeysAre(ms, ts, k);
    RowPresent(ms, ts, k);
    ByKeyGet(TelemetryKey(), ts, i);
  }

  /** There is no row about anyone else, and no two rows are about the same sender. */
  lemma {:induction false} NothingInvented(ms: seq<SenderTotals>, ts: seq<T.SenderSeen>)
    requires KeysDiffer(MetricsKey(), ms) && KeysDiffer(TelemetryKey(), ts)
    ensures KeysDiffer(RowKey(), JoinSenders(ms, ts))
    ensures forall r :: r in JoinSenders(ms, ts) ==>
        RowKey()(r) in Map(MetricsKey(), ms) || RowKey()(r) in Map(TelemetryKey(), ts)
  {
    var ks := RowKeys(ms, ts);
    var rows := Map(RowAt(ms, ts), ks);
    RowsKeyed(ms, ts);
    SortKeys(RecentFirst, RowKey(), rows);
    forall r | r in JoinSenders(ms, ts)
      ensures RowKey()(r) in Map(MetricsKey(), ms) || RowKey()(r) in Map(TelemetryKey(), ts)
    {
      SortMember(RecentFirst, rows, r);
      var i :| 0 <= i < |rows| && rows[i] == r;
      RowKeysAre(ms, ts, ks[i]);
    }
  }

  /** Every row is about the key it was built for. */
  lemma {:induction false} RowsKeyed(ms: seq<SenderTotals>, ts: seq<T.SenderSeen>)
    requires KeysDiffer(MetricsKey(), ms) && KeysDiffer(TelemetryKey(), ts)
    ensures forall i :: 0 <= i < |RowKeys(ms, ts)| ==> RowKey()(RowAt(ms, ts)(RowKeys(ms, ts)[i])) == RowKeys(ms, ts)[i]
    ensures KeysDiffer(RowKey(), Map(RowAt(ms, ts), RowKeys(ms, ts)))
  {
    var ks := RowKeys(ms, ts);
    ByKeyEntries(MetricsKey(), ms);
    ByKeyEntries(TelemetryKey(), ts);
    forall i | 0 <= i < |ks|
      ensures RowKey()(RowAt(ms, ts)(ks[i])) == ks[i]
    {
      DedupeMember(Map(MetricsKey(), ms) + Map(TelemetryKey(), ts), ks[i]);
      KeyOfRow(ms, ts, ks[i]);
    }
    DedupeMember(Map(MetricsKey(), ms) + Map(TelemetryKey(), ts), "");
  }

  lemma {:induction false} KeyOfRow(ms: seq<SenderTotals>, ts: seq<T.SenderSeen>, k: string)
    requires KeysDiffer(MetricsKey(), ms) && KeysDiffer(TelemetryKey(), ts)
    requires k in Map(MetricsKey(), ms) || k in Map(TelemetryKey(), ts)
    ensures RowKey()(RowAt(ms, ts)(k)) == k
  {
    ByKeyEntries(MetricsKey(), ms);
    ByKeyEntries(TelemetryKey(), ts);
    if k in Map(MetricsKey(), ms) {
      var i :| 0 <= i < |ms| && Map(MetricsKey(), ms)[i] == k;
      assert ByKey(MetricsKey(), ms).Get(k) == Some(ms[i]);
    } else {
      var i :| 0 <= i < |ts| && Map(TelemetryKey(), ts)[i] == k;
      assert ByKey(TelemetryKey(), ts).Get(k) == Some(ts[i]);
      ByKeyAbsent(MetricsKey(), ms, k);
    }
  }

  // ---- Totals of the sender rows

  /** A row column that shows a metrics column, and zero where there are no metrics. */
  ghost predicate ShowsColumn(f: SenderRow -> int, g: SenderTotals -> int) {
    forall k, m: Option<SenderTotals>, t: Option<T.SenderSeen> ::
        f(JoinRow(k, m, t)) == if m.Some? then g(m.value) else 0
  }

  lemma {:induction false} SumZero<A>(f: A -> int, a: seq<A>)
    requires forall i :: 0 <= i < |a| ==> f(a[i]) == 0
    ensures Sum(f, a) == 0
    decreases |a|
  {
    if a != [] {
      SumZero(f, a[..|a| - 1]);
    }
  }

  /** Joining with telemetry changes no total, whatever telemetry there is. */
  lemma {:induction false} JoinSum(ms: seq<SenderTotals>, ts: seq<T.SenderSeen>, f: SenderRow -> int,
      g: SenderTotals -> int)
    requires KeysDiffer(MetricsKey(), ms) && KeysDiffer(TelemetryKey(), ts)
    requires ShowsColumn(f, g)
    ensures Sum(f, JoinSenders(ms, ts)) == Sum(g, ms)
  {
    var h := RowAt(ms, ts);
    var a, b := Map(MetricsKey(), ms), Map(TelemetryKey(), ts);
    ByKeyEntries(MetricsKey(), ms);
    ByKeyEntries(TelemetryKey(), ts);
    var extra := Filter(Fresh(a), b);
    DedupeUnion(a, b);
    SortSum(RecentFirst, Map(h, RowKeys(ms, ts)), f);
    MapAppend(h, a, extra);
    SumAppend(f, Map(h, a), Map(h, extra));
    MetricsRows(ms, ts, f, g);
    ExtraRows(ms, ts, f, g, extra);
  }

  lemma {:induction false} MetricsRows(ms: seq<SenderTotals>, ts: seq<T.SenderSeen>, f: SenderRow -> int,
      g: SenderTotals -> int)
    requires KeysDiffer(MetricsKey(), ms) && ShowsColumn(f, g)
    ensures Sum(f, Map(RowAt(ms, ts), Map(MetricsKey(), ms))) == Sum(g, ms)
  {
    var h, a := RowAt(ms, ts), Map(MetricsKey(), ms);
    ByKeyEntries(MetricsKey(), ms);
    forall i | 0 <= i < |ms|
      ensures f(Map(h, a)[i]) == g(ms[i])
    {
      assert ByKey(MetricsKey(), ms).Get(MetricsKey()(ms[i])) == Some(ms[i]);
      assert h(a[i]) == JoinRow(a[i], Some(ms[i]), ByKey(TelemetryKey(), ts).Get(a[i]));
    }
    SameSums(f, g, Map(h, a), ms);
  }

  lemma {:induction false} ExtraRows(ms: seq<SenderTotals>, ts: seq<T.SenderSeen>, f: SenderRow -> int,
      g: SenderTotals -> int, extra: seq<string>)
    requires KeysDiffer(MetricsKey(), ms) && ShowsColumn(f, g)
    requires extra == Filter(Fresh(Map(MetricsKey(), ms)), Map(TelemetryKey(), ts))
    ensures Sum(f, Map(RowAt(ms, ts), extra)) == 0
  {
    var h, a := RowAt(ms, ts), Map(MetricsKey(), ms);
    forall i | 0 <= i < |extra|
      ensures f(Map(h, extra)[i]) == 0
    {
      FilterMember(Fresh(a), Map(TelemetryKey(), ts), extra[i]);
      forall j | 0 <= j < |ms|
        ensures MetricsKey()(ms[j]) != extra[i]
      {
        assert a[j] in a;
      }
      ByKeyAbsent(MetricsKey(), ms, extra[i]);
      assert h(extra[i]) == JoinRow(extra[i], None, ByKey(TelemetryKey(), ts).Get(extra[i]));
    }
    SumZero(f, Map(h, extra));
  }

  lemma {:induction false} MetricsDistinct(bigInt: Parser, us: seq<Summary>)
    ensures KeysDiffer(MetricsKey(), SenderTable(bigInt, us).Values())
    ensures KeysDiffer(MetricsKey(), SenderRows(bigInt, us))
  {
    var table := SenderTable(bigInt, us);
    TableRows(bigInt, us);
    forall i | 0 <= i < |table.keys|
      ensures MetricsKey()(table.Values()[i]) == table.keys[i]
    {
      assert table.keys[i] in table.entries;
      assert RowOf(bigInt, us, table.keys[i], table.entries[table.keys[i]]);
    }
    SortKeys(LaterOp, MetricsKey(), table.Values());
  }

  lemma {:induction false} TelemetryDistinct(x: T.Index)
    requires T.Keyed(x)
    ensures KeysDiffer(TelemetryKey(), T.SenderListings(x))
  {
    var vs := x.senders.Values();
    forall i | 0 <= i < |vs|
      ensures TelemetryKey()(vs[i]) == x.senders.keys[i]
    {
      assert x.senders.keys[i] in x.senders.entries;
    }
    SortKeys(T.SenderLater, TelemetryKey(), vs);
  }

  /** The sender rows' totals are the store's summary, after any history of heartbeats. */
  lemma {:induction false} SenderRowsTotal(bigInt: Parser, us: seq<Summary>, history: seq<T.Beat>)
    ensures T.Keyed(T.Replay(history))
    ensures
      var rows := JoinSenders(SenderRows(bigInt, us), T.SenderListings(T.Replay(history)));
      var summary := Summarize(bigInt, us);
      && Sum((r: SenderRow) => r.total, rows) == summary.total
      && Sum((r: SenderRow) => r.succeeded, rows) == summary.succeeded
      && Sum((r: SenderRow) => r.failed, rows) == summary.failed
      && Sum((r: SenderRow) => r.gasWei, rows) == summary.totalActualGasCostWei
      && Sum((r: SenderRow) => r.feeWei, rows) == summary.totalFeeAmount
  {
    T.ReplayKeyed(history);
    var ms, ts := SenderRows(bigInt, us), T.SenderListings(T.Replay(history));
    MetricsDistinct(bigInt, us);
    TelemetryDistinct(T.Replay(history));
    RowsPartition(bigInt, us);
    JoinSum(ms, ts, (r: SenderRow) => r.total, (t: SenderTotals) => t.total);
    JoinSum(ms, ts, (r: SenderRow) => r.succeeded, (t: SenderTotals) => t.succeeded);
    JoinSum(ms, ts, (r: SenderRow) => r.failed, (t: SenderTotals) => t.failed);
    JoinSum(ms, ts, (r: SenderRow) => r.gasWei, (t: SenderTotals) => t.gasWei);
    JoinSum(ms, ts, (r: SenderRow) => r.feeWei, (t: SenderTotals) => t.feeWei);
  }

  // ---- Owner rows

  function AddRow(acc: SenderTotals, m: SenderTotals): SenderTotals {
    SenderTotals(acc.sender, acc.total + m.total, acc.succeeded + m.succeeded, acc.failed + m.failed,
                 Max(acc.lastOpTs, m.lastOpTs), acc.gasWei + m.gasWei, acc.feeWei + m.feeWei)
  }

  /** Running totals over the listed senders that have metrics. */
  function RolledUp(byKey: JsMap<string, SenderTotals>, senders: seq<string>, owner: string): SenderTotals {
    if senders == [] then NoOps(owner)
    else
      var acc := RolledUp(byKey, senders[..|senders| - 1], owner);
      match byKey.Get(ToLower(senders[|senders| - 1]))
      case Some(m) => AddRow(acc, m)
      case None => acc
  }

  method RollUp(o: T.OwnerListing, byKey: JsMap<string, SenderTotals>) returns (r: OwnerRow)
    ensures r == OwnerRow(o.owner, o.firstSeenMs, o.lastSeenMs, o.senders, RolledUp(byKey, o.senders, o.owner))
  {
    var total: nat, succeeded: nat, failed: nat := 0, 0, 0;
    var lastOpTs, gasWei, feeWei := 0, 0, 0;
    for i := 0 to |o.senders|
      invariant RolledUp(byKey, o.senders[..i], o.owner) ==
          SenderTotals(o.owner, total, succeeded, failed, lastOpTs, gasWei, feeWei)
    {
      assert o.senders[..i + 1][..i] == o.senders[..i];
      var m := byKey.Get(ToLower(o.senders[i]));
      if m.None? {
        continue;
      }
      total := total + m.value.total;
      succeeded := succeeded + m.value.succeeded;
      failed := failed + m.value.failed;
      lastOpTs := Max(lastOpTs, m.value.lastOpTs);
      gasWei := gasWei + m.value.gasWei;
      feeWei := feeWei + m.value.feeWei;
    }
    assert o.senders[..|o.senders|] == o.senders;
    r := OwnerRow(o.owner, o.firstSeenMs, o.lastSeenMs, o.senders,
                  SenderTotals(o.owner, total, succeeded, failed, lastOpTs, gasWei, feeWei));
  }

  /** The operations of a set of senders. */
  function OfAny(keys: seq<string>): Summary -> bool {
    (u: Summary) => SenderKey(u) in keys
  }

  lemma {:induction false} FilterSum(g: Summary -> int, p: Summary -> bool, us: seq<Summary>, u: Summary)
    ensures Sum(g, Filter(p, us + [u])) == Sum(g, Filter(p, us)) + if p(u) then g(u) else 0
  {
    FilterSnoc(p, us, u);
    SumSnoc(g, Filter(p, us), u);
    assert Filter(p, us) + [] == Filter(p, us);
  }

  lemma {:induction false} SumSplit(g: Summary -> int, p: Summary -> bool, q: Summary -> bool, pq: Summary -> bool,
      us: seq<Summary>)
    requires forall i :: 0 <= i < |us| ==> pq(us[i]) == (p(us[i]) || q(us[i])) && !(p(us[i]) && q(us[i]))
    ensures Sum(g, Filter(pq, us)) == Sum(g, Filter(p, us)) + Sum(g, Filter(q, us))
    decreases |us|
  {
    if us != [] {
      var n := |us| - 1;
      var h, u := us[..n], us[n];
      SumSplit(g, p, q, pq, h);
      assert us == h + [u];
      FilterSum(g, p, h, u);
      FilterSum(g, q, h, u);
      FilterSum(g, pq, h, u);
    }
  }

  function CountIf(p: Summary -> bool): Summary -> int {
    (u: Summary) => if p(u) then 1 else 0
  }

  lemma {:induction false} CountSplit(s: Summary -> bool, p: Summary -> bool, q: Summary -> bool, pq: Summary -> bool,
      us: seq<Summary>)
    requires forall i :: 0 <= i < |us| ==> pq(us[i]) == (p(us[i]) || q(us[i])) && !(p(us[i]) && q(us[i]))
    ensures |Filter(s, Filter(pq, us))| == |Filter(s, Filter(p, us))| + |Filter(s, Filter(q, us))|
  {
    SumSplit(CountIf(s), p, q, pq, us);
    SumOnes(s, CountIf(s), Filter(pq, us));
    SumOnes(s, CountIf(s), Filter(p, us));
    SumOnes(s, CountIf(s), Filter(q, us));
  }

  lemma {:induction false} LengthSplit(p: Summary -> bool, q: Summary -> bool, pq: Summary -> bool, us: seq<Summary>)
    requires forall i :: 0 <= i < |us| ==> pq(us[i]) == (p(us[i]) || q(us[i])) && !(p(us[i]) && q(us[i]))
    ensures |Filter(pq, us)| == |Filter(p, us)| + |Filter(q, us)|
    decreases |us|
  {
    if us != [] {
      LengthSplit(p, q, pq, us[..|us| - 1]);
    }
  }

  /** The latest stamp among some operations, zero if none is later. */
  ghost predicate Latest(ts: int, us: seq<Summary>) {
    && (forall i :: 0 <= i < |us| ==> us[i].ts <= ts)
    && (ts == 0 || exists i :: 0 <= i < |us| && us[i].ts == ts)
    && 0 <= ts
  }

  lemma {:induction false} LatestSplit(a: int, b: int, p: Summary -> bool, q: Summary -> bool, pq: Summary -> bool,
      us: seq<Summary>)
    requires forall i :: 0 <= i < |us| ==> pq(us[i]) == (p(us[i]) || q(us[i]))
    requires Latest(a, Filter(p, us)) && Latest(b, Filter(q, us))
    ensures Latest(Max(a, b), Filter(pq, us))
  {
    var fp, fq, fpq := Filter(p, us), Filter(q, us), Filter(pq, us);
    forall i | 0 <= i < |fpq|
      ensures fpq[i].ts <= Max(a, b)
    {
      FilterMember(pq, us, fpq[i]);
      FilterMember(p, us, fpq[i]);
      FilterMember(q, us, fpq[i]);
      if p(fpq[i]) {
        var j :| 0 <= j < |fp| && fp[j] == fpq[i];
      } else {
        var j :| 0 <= j < |fq| && fq[j] == fpq[i];
      }
    }
    if a >= b && a != 0 {
      var i :| 0 <= i < |fp| && fp[i].ts == a;
      InUnion(p, pq, us, fp[i]);
    } else if b != 0 {
      var i :| 0 <= i < |fq| && fq[i].ts == b;
      InUnion(q, pq, us, fq[i]);
    }
  }

  lemma {:induction false} InUnion(p: Summary -> bool, pq: Summary -> bool, us: seq<Summary>, u: Summary)
    requires forall i :: 0 <= i < |us| && p(us[i]) ==> pq(us[i])
    requires u in Filter(p, us)
    ensures exists i :: 0 <= i < |Filter(pq, us)| && Filter(pq, us)[i].ts == u.ts
  {
    FilterMember(p, us, u);
    FilterMember(pq, us, u);
    var i :| 0 <= i < |us| && us[i] == u;
    var j :| 0 <= j < |Filter(pq, us)| && Filter(pq, us)[j] == u;
  }

  lemma {:induction false} TotalsUnion(bigInt: Parser, acc: SenderTotals, m: SenderTotals,
      p: Summary -> bool, q: Summary -> bool, pq: Summary -> bool, us: seq<Summary>)
    requires forall i :: 0 <= i < |us| ==> pq(us[i]) == (p(us[i]) || q(us[i])) && !(p(us[i]) && q(us[i]))
    requires Totals(bigInt, acc, Filter(p, us)) && Totals(bigInt, m, Filter(q, us))
    ensures Totals(bigInt, AddRow(acc, m), Filter(pq, us))
  {
    LengthSplit(p, q, pq, us);
    CountSplit(Succeeded, p, q, pq, us);
    CountSplit(FailedOp, p, q, pq, us);
    SumSplit(GasOf(bigInt), p, q, pq, us);
    SumSplit(FeeOf(bigInt), p, q, pq, us);
    LatestSplit(acc.lastOpTs, m.lastOpTs, p, q, pq, us);
  }

  /** Looking a key up in an index of sorted table values is looking it up in the table. */
  lemma {:induction false} IndexOfTable<V>(leq: (V, V) -> bool, key: V -> string, table: JsMap<string, V>,
      rows: seq<V>, k: string)
    requires table.Valid() && rows == Sort(leq, table.Values())
    requires forall j :: j in table.entries ==> key(table.entries[j]) == j
    requires KeysDiffer(key, rows)
    ensures ByKey(key, rows).Get(k) == table.Get(k)
  {
    if k in table.entries {
      ValuesMember(table, table.entries[k]);
      SortMember(leq, table.Values(), table.entries[k]);
      var i :| 0 <= i < |rows| && rows[i] == table.entries[k];
      ByKeyGet(key, rows, i);
    } else {
      forall i | 0 <= i < |rows|
        ensures key(rows[i]) != k
      {
        SortMember(leq, table.Values(), rows[i]);
        ValuesMember(table, rows[i]);
      }
      ByKeyAbsent(key, rows, k);
    }
  }

  lemma {:induction false} RowsByKey(bigInt: Parser, us: seq<Summary>, k: string)
    ensures ByKey(MetricsKey(), SenderRows(bigInt, us)).Get(k) == SenderTable(bigInt, us).Get(k)
  {
    var table := SenderTable(bigInt, us);
    TableRows(bigInt, us);
    MetricsDistinct(bigInt, us);
    forall j | j in table.entries
      ensures MetricsKey()(table.entries[j]) == j
    {
      assert RowOf(bigInt, us, j, table.entries[j]);
    }
    IndexOfTable(LaterOp, MetricsKey(), table, SenderRows(bigInt, us), k);
  }

  /** The totals of exactly the operations of these senders. */
  ghost predicate TotalsOf(bigInt: Parser, us: seq<Summary>, acc: SenderTotals, keys: seq<string>) {
    Totals(bigInt, acc, Filter(OfAny(keys), us))
  }

  lemma {:induction false} SenderApart(us: seq<Summary>, keys: seq<string>, k: string)
    requires k !in keys
    ensures forall i :: 0 <= i < |us| ==>
      OfAny(keys + [k])(us[i]) == (OfAny(keys)(us[i]) || Of(k)(us[i])) && !(OfAny(keys)(us[i]) && Of(k)(us[i]))
  {
  }

  /** One more sender adds exactly its own operations. */
  lemma {:induction false} RollUpSome(bigInt: Parser, us: seq<Summary>, acc: SenderTotals, keys: seq<string>,
      k: string, m: SenderTotals)
    requires k !in keys && RowOf(bigInt, us, k, m) && TotalsOf(bigInt, us, acc, keys)
    ensures TotalsOf(bigInt, us, AddRow(acc, m), keys + [k])
  {
    SenderApart(us, keys, k);
    hide OfAny, Of, Totals;
    TotalsUnion(bigInt, acc, m, OfAny(keys), Of(k), OfAny(keys + [k]), us);
  }

  /** A sender without operations adds nothing. */
  lemma {:induction false} RollUpNone(bigInt: Parser, us: seq<Summary>, acc: SenderTotals, keys: seq<string>, k: string)
    requires k !in SenderKeys(us) && TotalsOf(bigInt, us, acc, keys)
    ensures TotalsOf(bigInt, us, acc, keys + [k])
  {
    SameOps(us, keys, k);
  }

  lemma {:induction false} TableRow(bigInt: Parser, us: seq<Summary>, k: string)
    ensures match SenderTable(bigInt, us).Get(k) case Some(m) => RowOf(bigInt, us, k,
        m) case None => k !in SenderKeys(us)
  {
    TableRows(bigInt, us);
  }

  lemma {:induction false} RollUpStep(bigInt: Parser, us: seq<Summary>, acc: SenderTotals, keys: seq<string>,
      k: string, row: Option<SenderTotals>)
    requires k !in keys && row == SenderTable(bigInt, us).Get(k)
    requires TotalsOf(bigInt, us, acc, keys)
    ensures TotalsOf(bigInt, us, match row case Some(m) => AddRow(acc, m) case None => acc, keys + [k])
  {
    hide TotalsOf, RowOf, SenderTable, AddRow;
    TableRow(bigInt, us, k);
    match row
    case Some(m) => RollUpSome(bigInt, us, acc, keys, k, m);
    case None => RollUpNone(bigInt, us, acc, keys, k);
  }

  lemma {:induction false} RolledUpSteps(byKey: JsMap<string, SenderTotals>, senders: seq<string>, owner: string)
    ensures RolledUp(byKey, [], owner) == NoOps(owner)
    ensures senders != [] ==>
      var n := |senders| - 1;
      var acc := RolledUp(byKey, senders[..n], owner);
      RolledUp(byKey, senders, owner) == match byKey.Get(ToLower(senders[n])) case Some(m) => AddRow(acc,
          m) case None => acc
  {
  }

  /** Over senders with distinct keys, the roll-up totals exactly the operations of those senders. */
  lemma {:induction false} RolledUpTotals(bigInt: Parser, us: seq<Summary>, byKey: JsMap<string, SenderTotals>,
      senders: seq<string>, keys: seq<string>, owner: string)
    requires keys == Map(ToLower, senders) && Distinct(keys)
    requires byKey == ByKey(MetricsKey(), SenderRows(bigInt, us))
    ensures TotalsOf(bigInt, us, RolledUp(byKey, senders, owner), keys)
    decreases |senders|
  {
    hide TotalsOf, RolledUp, SenderRows, AddRow;
    RolledUpSteps(byKey, senders, owner);
    if senders == [] {
      NobodysOps(bigInt, us, owner);
    } else {
      var n := |senders| - 1;
      RolledUpTotals(bigInt, us, byKey, senders[..n], keys[..n], owner);
      RowsByKey(bigInt, us, keys[n]);
      RollUpStep(bigInt, us, RolledUp(byKey, senders[..n], owner), keys[..n], keys[n], byKey.Get(keys[n]));
      assert keys == keys[..n] + [keys[n]];
    }
  }

  lemma {:induction false} NobodysOps(bigInt: Parser, us: seq<Summary>, owner: string)
    ensures Filter(OfAny([]), us) == []
    ensures TotalsOf(bigInt, us, NoOps(owner), [])
    decreases |us|
  {
    if us != [] {
      NobodysOps(bigInt, us[..|us| - 1], owner);
    }
  }

  lemma {:induction false} SameOps(us: seq<Summary>, keys: seq<string>, k: string)
    requires k !in SenderKeys(us)
    ensures Filter(OfAny(keys + [k]), us) == Filter(OfAny(keys), us)
  {
    forall i | 0 <= i < |us|
      ensures OfAny(keys + [k])(us[i]) == OfAny(keys)(us[i])
    {
      assert us[i] in us;
    }
    FilterCongruent(OfAny(keys + [k]), OfAny(keys), us);
  }

  lemma {:induction false} ListedKeys(x: T.Index, k: string)
    requires T.Keyed(x) && k in x.owners.entries
    ensures Map(ToLower, T.Listing(x)(k).senders) == x.links.Get(k).GetOr([])
    ensures Distinct(x.links.Get(k).GetOr([]))
  {
    if k in x.links.entries {
      T.SpelledKeys(x, k);
    }
  }

  /** The senders listed for an owner are those that some heartbeat named with it, each once. */
  lemma {:induction false} LinkedNames(history: seq<T.Beat>, k: string, senders: seq<string>)
    requires k in T.Replay(history).owners.entries
    requires senders == T.Listing(T.Replay(history))(k).senders
    ensures Distinct(Map(ToLower, senders))
    ensures forall s :: s in Map(ToLower, senders) <==> exists i :: 0 <= i < |history| && T.NamesBoth(history[i], k, s)
  {
    T.ReplayKeyed(history);
    hide T.Replay, T.Listing, T.Keyed;
    ListedKeys(T.Replay(history), k);
    forall s
      ensures s in Map(ToLower, senders) <==> exists i :: 0 <= i < |history| && T.NamesBoth(history[i], k, s)
    {
      T.LinkedByHeartbeat(history, k, s);
    }
  }

  /** Each owner's totals are those of the operations sent by its linked senders, every operation counted once. */
  lemma {:induction false} OwnerTotals(bigInt: Parser, us: seq<Summary>, history: seq<T.Beat>, k: string,
      listing: T.OwnerListing)
    requires k in T.Replay(history).owners.entries
    requires listing == T.Listing(T.Replay(history))(k)
    ensures Distinct(Map(ToLower, listing.senders))
    ensures forall s :: s in Map(ToLower, listing.senders) <==>
        exists i :: 0 <= i < |history| && T.NamesBoth(history[i], k, s)
    ensures TotalsOf(bigInt, us, RolledUp(ByKey(MetricsKey(), SenderRows(bigInt, us)), listing.senders, listing.owner),
                     Map(ToLower, listing.senders))
  {
    hide T.Replay, T.Listing, Totals, RolledUp, SenderRows, Filter;
    LinkedNames(history, k, listing.senders);
    RolledUpTotals(bigInt, us, ByKey(MetricsKey(), SenderRows(bigInt, us)), listing.senders,
        Map(ToLower, listing.senders), listing.owner);
  }
}
