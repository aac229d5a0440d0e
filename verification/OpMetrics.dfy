/** Aggregates over the indexed operations: what each report means, and how the reports fit together. */
module OpMetrics {
  import opened Wrappers
  import opened Sequences
  import opened Sorting
  import opened JsMaps
  import opened Text
  import opened OpRecords

  /** `BigInt` on a decimal string, which may fail. */
  type Parser = string -> Option<int>

  function Gas(bigInt: Parser, u: Summary): int {
    bigInt(u.actualGasCostWei).GetOr(0)
  }

  function Fee(bigInt: Parser, u: Summary): int {
    if u.feeAmount.Some? && u.feeAmount.value != "" then bigInt(u.feeAmount.value).GetOr(0) else 0
  }

  predicate Succeeded(u: Summary) {
    u.success
  }

  predicate FailedOp(u: Summary) {
    !u.success
  }

  function SenderKey(u: Summary): string {
    ToLower(u.sender)
  }

  function GasOf(bigInt: Parser): Summary -> int {
    u => Gas(bigInt, u)
  }

  function FeeOf(bigInt: Parser): Summary -> int {
    u => Fee(bigInt, u)
  }

  // ------------------------------------------------------------------ the summary

  datatype MetricsSummary = MetricsSummary(
    total: nat, succeeded: nat, failed: nat, uniqueSenders: nat, totalActualGasCostWei: int, totalFeeAmount: int)

  function SenderKeys(us: seq<Summary>): set<string> {
    set u | u in us :: SenderKey(u)
  }

  function Summarize(bigInt: Parser, us: seq<Summary>): MetricsSummary {
    MetricsSummary(|us|, |Filter(Succeeded, us)|, |Filter(FailedOp, us)|, |SenderKeys(us)|,
                   Sum(GasOf(bigInt), us), Sum(FeeOf(bigInt), us))
  }

  // ------------------------------------------------------------------ per sender

  datatype SenderTotals = SenderTotals(
    sender: string, total: nat, succeeded: nat, failed: nat, lastOpTs: int, gasWei: int, feeWei: int)

  function AddOp(bigInt: Parser, t: SenderTotals, u: Summary): SenderTotals {
    SenderTotals(
      t.sender, t.total + 1,
      if u.success then t.succeeded + 1 else t.succeeded,
      if u.success then t.failed else t.failed + 1,
      Max(t.lastOpTs, u.ts), t.gasWei + Gas(bigInt, u), t.feeWei + Fee(bigInt, u))
  }

  function NoOps(sender: string): SenderTotals {
    SenderTotals(sender, 0, 0, 0, 0, 0, 0)
  }

  function SenderTable(bigInt: Parser, us: seq<Summary>): (r: JsMap<string, SenderTotals>)
    ensures r.Valid()
  {
    if us == [] then Empty()
    else
      var u := us[|us| - 1];
      var table := SenderTable(bigInt, us[..|us| - 1]);
      table.Set(SenderKey(u), AddOp(bigInt, table.Get(SenderKey(u)).GetOr(NoOps(u.sender)), u))
  }

  predicate LaterOp(a: SenderTotals, b: SenderTotals) {
    b.lastOpTs <= a.lastOpTs
  }

  /** One row per sender, latest activity first. */
  function SenderRows(bigInt: Parser, us: seq<Summary>): seq<SenderTotals> {
    Sort(LaterOp, SenderTable(bigInt, us).Values())
  }

  function Of(key: string): Summary -> bool {
    u => SenderKey(u) == key
  }

  lemma {:induction false} AddSums(bigInt: Parser, us: seq<Summary>, u: Summary)
    ensures Sum(GasOf(bigInt), us + [u]) == Sum(GasOf(bigInt), us) + Gas(bigInt, u)
    ensures Sum(FeeOf(bigInt), us + [u]) == Sum(FeeOf(bigInt), us) + Fee(bigInt, u)
    ensures |Filter(Succeeded, us + [u])| == |Filter(Succeeded, us)| + (if u.success then 1 else 0)
    ensures |Filter(FailedOp, us + [u])| == |Filter(FailedOp, us)| + (if u.success then 0 else 1)
  {
    SumSnoc(GasOf(bigInt), us, u);
    SumSnoc(FeeOf(bigInt), us, u);
    FilterSnoc(Succeeded, us, u);
    FilterSnoc(FailedOp, us, u);
  }

  /** The totals of some operations, as a row has them. */
  ghost predicate Totals(bigInt: Parser, t: SenderTotals, us: seq<Summary>) {
    && t.total == |us|
    && t.succeeded == |Filter(Succeeded, us)|
    && t.failed == |Filter(FailedOp, us)|
    && t.gasWei == Sum(GasOf(bigInt), us)
    && t.feeWei == Sum(FeeOf(bigInt), us)
    && (forall i :: 0 <= i < |us| ==> us[i].ts <= t.lastOpTs)
    && (t.lastOpTs == 0 || exists i :: 0 <= i < |us| && us[i].ts == t.lastOpTs)
    && 0 <= t.lastOpTs
  }

  lemma {:induction false} TotalsStep(bigInt: Parser, t: SenderTotals, us: seq<Summary>, u: Summary)
    requires Totals(bigInt, t, us)
    ensures Totals(bigInt, AddOp(bigInt, t, u), us + [u])
  {
    AddSums(bigInt, us, u);
    var r := us + [u];
    assert r[|us|] == u;
    if t.lastOpTs != 0 {
      var i :| 0 <= i < |us| && us[i].ts == t.lastOpTs;
      assert r[i] == us[i];
    }
  }

  /** A sender's row holds the totals of exactly that sender's operations. */
  ghost predicate RowOf(bigInt: Parser, us: seq<Summary>, k: string, row: SenderTotals) {
    ToLower(row.sender) == k && Totals(bigInt, row, Filter(Of(k), us))
  }

  ghost predicate TableOf(bigInt: Parser, us: seq<Summary>, table: map<string, SenderTotals>) {
    && table.Keys == SenderKeys(us)
    && forall k | k in table :: RowOf(bigInt, us, k, table[k])
  }

  lemma {:induction false} NoRow(us: seq<Summary>, k: string)
    requires k !in SenderKeys(us)
    ensures Filter(Of(k), us) == []
  {
    if us != [] {
      var n := |us| - 1;
      assert us[n] in us;
      assert forall u | u in us[..n] :: u in us;
      NoRow(us[..n], k);
    }
  }

  lemma {:induction false} OwnRowStep(bigInt: Parser, us: seq<Summary>, u: Summary, row: SenderTotals)
    requires RowOf(bigInt, us, SenderKey(u), row)
    ensures RowOf(bigInt, us + [u], SenderKey(u), AddOp(bigInt, row, u))
  {
    FilterSnoc(Of(SenderKey(u)), us, u);
    TotalsStep(bigInt, row, Filter(Of(SenderKey(u)), us), u);
  }

  lemma {:induction false} OtherRowStep(bigInt: Parser, us: seq<Summary>, u: Summary, k: string, row: SenderTotals)
    requires RowOf(bigInt, us, k, row) && k != SenderKey(u)
    ensures RowOf(bigInt, us + [u], k, row)
  {
    FilterSnoc(Of(k), us, u);
    assert Filter(Of(k), us + [u]) == Filter(Of(k), us);
  }

  lemma {:induction false} FirstRow(bigInt: Parser, us: seq<Summary>, u: Summary)
    requires SenderKey(u) !in SenderKeys(us)
    ensures RowOf(bigInt, us, SenderKey(u), NoOps(u.sender))
  {
    NoRow(us, SenderKey(u));
  }

  lemma {:induction false} OwnRow(bigInt: Parser, us: seq<Summary>, u: Summary, table: map<string, SenderTotals>,
      row: SenderTotals)
    requires TableOf(bigInt, us, table)
    requires row == if SenderKey(u) in table then table[SenderKey(u)] else NoOps(u.sender)
    ensures RowOf(bigInt, us + [u], SenderKey(u), AddOp(bigInt, row, u))
  {
    if SenderKey(u) !in table {
      FirstRow(bigInt, us, u);
    }
    assert RowOf(bigInt, us, SenderKey(u), row);
    OwnRowStep(bigInt, us, u, row);
  }

  lemma {:induction false} OtherRow(bigInt: Parser, us: seq<Summary>, u: Summary, table: map<string, SenderTotals>,
      k: string)
    requires TableOf(bigInt, us, table) && k in table && k != SenderKey(u)
    ensures RowOf(bigInt, us + [u], k, table[k])
  {
    OtherRowStep(bigInt, us, u, k, table[k]);
  }

  lemma {:induction false} TableKeys(bigInt: Parser, us: seq<Summary>, u: Summary, table: map<string, SenderTotals>,
      row: SenderTotals)
    requires TableOf(bigInt, us, table)
    ensures table[SenderKey(u) := row].Keys == SenderKeys(us + [u])
  {
    SenderKeysSnoc(us, u);
  }

  lemma {:induction false} TableStep(bigInt: Parser, us: seq<Summary>, u: Summary, table: map<string, SenderTotals>,
      row: SenderTotals)
    requires TableOf(bigInt, us, table)
    requires row == if SenderKey(u) in table then table[SenderKey(u)] else NoOps(u.sender)
    ensures TableOf(bigInt, us + [u], table[SenderKey(u) := AddOp(bigInt, row, u)])
  {
    var next := table[SenderKey(u) := AddOp(bigInt, row, u)];
    TableKeys(bigInt, us, u, table, AddOp(bigInt, row, u));
    forall k | k in next
      ensures RowOf(bigInt, us + [u], k, next[k])
    {
      if k == SenderKey(u) {
        OwnRow(bigInt, us, u, table, row);
      } else {
        OtherRow(bigInt, us, u, table, k);
      }
    }
  }

  lemma {:induction false} SenderKeysSnoc(us: seq<Summary>, u: Summary)
    ensures SenderKeys(us + [u]) == SenderKeys(us) + {SenderKey(u)}
  {
    assert forall x :: x in us + [u] <==> x in us || x == u;
  }

  lemma {:induction false} TableSnoc(bigInt: Parser, us: seq<Summary>, u: Summary)
    requires TableOf(bigInt, us, SenderTable(bigInt, us).entries)
    ensures TableOf(bigInt, us + [u], SenderTable(bigInt, us + [u]).entries)
  {
    var before := SenderTable(bigInt, us);
    assert (us + [u])[..|us|] == us;
    TableStep(bigInt, us, u, before.entries, before.Get(SenderKey(u)).GetOr(NoOps(u.sender)));
  }

  /** There is a row exactly for each sender, with that sender's totals. */
  lemma {:induction false} TableRows(bigInt: Parser, us: seq<Summary>)
    ensures TableOf(bigInt, us, SenderTable(bigInt, us).entries)
  {
    var holds := (before: seq<Summary>) => TableOf(bigInt, before, SenderTable(bigInt, before).entries);
    forall before, u | holds(before)
      ensures holds(before + [u])
    {
      TableSnoc(bigInt, before, u);
    }
    SnocInduction(holds, us);
  }

  /** What a report column adds per operation. */
  ghost predicate Column(bigInt: Parser, f: SenderTotals -> int, g: Summary -> int) {
    && (forall t, u :: f(AddOp(bigInt, t, u)) == f(t) + g(u))
    && (forall s :: f(NoOps(s)) == 0)
  }

  /** For every additive column the rows add up to the total over all operations. */
  lemma {:induction false} RowsAddUp(bigInt: Parser, us: seq<Summary>, f: SenderTotals -> int, g: Summary -> int)
    requires Column(bigInt, f, g)
    ensures Sum(f, SenderTable(bigInt, us).Values()) == Sum(g, us)
  {
    if us != [] {
      var n := |us| - 1;
      var u, before := us[n], SenderTable(bigInt, us[..n]);
      RowsAddUp(bigInt, us[..n], f, g);
      SetSum(before, SenderKey(u), AddOp(bigInt, before.Get(SenderKey(u)).GetOr(NoOps(u.sender)), u), f);
    }
  }

  /** The per-sender rows partition the store: counts, gas and fees sum to the summary, and there are as many
      rows as unique senders. */
  lemma {:induction false} RowsPartition(bigInt: Parser, us: seq<Summary>)
    ensures
      var rows, summary := SenderRows(bigInt, us), Summarize(bigInt, us);
      && |rows| == summary.uniqueSenders
      && Sum((t: SenderTotals) => t.total, rows) == summary.total
      && Sum((t: SenderTotals) => t.succeeded, rows) == summary.succeeded
      && Sum((t: SenderTotals) => t.failed, rows) == summary.failed
      && Sum((t: SenderTotals) => t.gasWei, rows) == summary.totalActualGasCostWei
      && Sum((t: SenderTotals) => t.feeWei, rows) == summary.totalFeeAmount
      && summary.succeeded + summary.failed == summary.total
  {
    RowsCount(bigInt, us);
    ColumnSum(bigInt, us, (t: SenderTotals) => t.total, u => 1);
    ColumnSum(bigInt, us, (t: SenderTotals) => t.succeeded, u => if Succeeded(u) then 1 else 0);
    ColumnSum(bigInt, us, (t: SenderTotals) => t.failed, u => if FailedOp(u) then 1 else 0);
    ColumnSum(bigInt, us, (t: SenderTotals) => t.gasWei, GasOf(bigInt));
    ColumnSum(bigInt, us, (t: SenderTotals) => t.feeWei, FeeOf(bigInt));
    SumOnes(Succeeded, u => if Succeeded(u) then 1 else 0, us);
    SumOnes(FailedOp, u => if FailedOp(u) then 1 else 0, us);
    AllOnes(us);
  }

  lemma {:induction false} RowsCount(bigInt: Parser, us: seq<Summary>)
    ensures |SenderRows(bigInt, us)| == |SenderKeys(us)|
  {
    var table := SenderTable(bigInt, us);
    assert table.entries.Keys == SenderKeys(us) by {
      TableRows(bigInt, us);
    }
    SortElements(LaterOp, table.Values());
    KeysCount(table);
  }

  lemma {:induction false} AllOnes(us: seq<Summary>)
    ensures Sum(u => 1, us) == |us|
    ensures |Filter(Succeeded, us)| + |Filter(FailedOp, us)| == |us|
  {
    if us != [] {
      AllOnes(us[..|us| - 1]);
    }
  }

  lemma {:induction false} KeysCount<V>(m: JsMap<string, V>)
    requires m.Valid()
    ensures |m.entries.Keys| == |m.keys|
  {
    DistinctCardinality(m.keys);
    assert m.entries.Keys == Elements(m.keys);
  }

  lemma {:induction false} ColumnSum(bigInt: Parser, us: seq<Summary>, f: SenderTotals -> int, g: Summary -> int)
    requires Column(bigInt, f, g)
    ensures Sum(f, SenderRows(bigInt, us)) == Sum(g, us)
  {
    RowsAddUp(bigInt, us, f, g);
    SortSum(LaterOp, SenderTable(bigInt, us).Values(), f);
  }

  // ------------------------------------------------------------------ failure reasons

  function Reason(u: Summary): string {
    if u.revertReason.Some? && u.revertReason.value != "" then u.revertReason.value else "Unknown / Reverted"
  }

  function ReasonTable(us: seq<Summary>): (r: JsMap<string, nat>)
    ensures r.Valid()
  {
    if us == [] then Empty()
    else
      var u, table := us[|us| - 1], ReasonTable(us[..|us| - 1]);
      if u.success then table else table.Set(Reason(u), table.Get(Reason(u)).GetOr(0) + 1)
  }

  function FailedFor(reason: string): Summary -> bool {
    u => FailedOp(u) && Reason(u) == reason
  }

  /** Each reason's count is the number of failed operations with that reason, and the counts sum to `failed`. */
  lemma {:induction false} ReasonCounts(us: seq<Summary>, reason: string)
    ensures ReasonTable(us).Get(reason).GetOr(0) == |Filter(FailedFor(reason), us)|
    ensures Sum((n: nat) => n, ReasonTable(us).Values()) == |Filter(FailedOp, us)|
  {
    if us != [] {
      var n := |us| - 1;
      var u, table := us[n], ReasonTable(us[..n]);
      ReasonCounts(us[..n], reason);
      if !u.success {
        SetSum(table, Reason(u), table.Get(Reason(u)).GetOr(0) + 1, (n: nat) => n);
      }
    }
  }

  datatype Failure = Failure(reason: string, count: nat)

  predicate MoreOften(a: Failure, b: Failure) {
    b.count <= a.count
  }

  function FailuresOf(reasons: JsMap<string, nat>): seq<Failure>
    requires reasons.Valid()
  {
    seq(|reasons.keys|, i requires 0 <= i < |reasons.keys| =>
      Failure(reasons.keys[i], reasons.entries[reasons.keys[i]]))
  }

  /** The failure report: a row for each reason, the most frequent first. */
  function FailureRows(us: seq<Summary>): seq<Failure> {
    Sort(MoreOften, FailuresOf(ReasonTable(us)))
  }

  lemma {:induction false} ReasonsPositive(us: seq<Summary>)
    ensures forall k :: k in ReasonTable(us).entries ==> ReasonTable(us).entries[k] > 0
    decreases |us|
  {
    if us != [] {
      ReasonsPositive(us[..|us| - 1]);
    }
  }

  /** Exactly the reasons of failed operations have a row, one each, with the number of operations that failed for it;
      the rows come in order of their counts, and the counts sum to the failed operations. */
  lemma {:induction false} FailuresExact(us: seq<Summary>)
    ensures Sorted(MoreOften, FailureRows(us))
    ensures forall i, j :: 0 <= i < j < |FailureRows(us)| ==> FailureRows(us)[i].reason != FailureRows(us)[j].reason
    ensures forall r: Failure :: r in FailureRows(us) <==> r.count > 0 && r.count == |Filter(FailedFor(r.reason), us)|
    ensures Sum((f: Failure) => f.count, FailureRows(us)) == |Filter(FailedOp, us)|
  {
    var table, rows := ReasonTable(us), FailuresOf(ReasonTable(us));
    SortSorted(MoreOften, rows);
    FailureReasons(rows);
    ReasonsPositive(us);
    forall r: Failure
      ensures r in FailureRows(us) <==> r.count > 0 && r.count == |Filter(FailedFor(r.reason), us)|
    {
      ReasonCounts(us, r.reason);
      SortMember(MoreOften, rows, r);
      FailureListed(table, r);
    }
    ReasonCounts(us, "");
    SortSum(MoreOften, rows, (f: Failure) => f.count);
    SameSums((f: Failure) => f.count, (n: nat) => n, rows, table.Values());
  }

  lemma {:induction false} FailureListed(table: JsMap<string, nat>, r: Failure)
    requires table.Valid()
    ensures r in FailuresOf(table) <==> table.Get(r.reason) == Some(r.count)
  {
    if table.Get(r.reason) == Some(r.count) {
      var i :| 0 <= i < |table.keys| && table.keys[i] == r.reason;
      assert FailuresOf(table)[i] == r;
    }
  }

  lemma {:induction false} FailureReasons(rows: seq<Failure>)
    requires forall i, j :: 0 <= i < j < |rows| ==> rows[i].reason != rows[j].reason
    ensures
      var r := Sort(MoreOften, rows);
      forall i, j :: 0 <= i < j < |r| ==> r[i].reason != r[j].reason
  {
    var r := Sort(MoreOften, rows);
    SortDistinct(MoreOften, rows);
    forall i, j | 0 <= i < j < |r|
      ensures r[i].reason != r[j].reason
    {
      SortMember(MoreOften, rows, r[i]);
      SortMember(MoreOften, rows, r[j]);
      var a :| 0 <= a < |rows| && rows[a] == r[i];
      var b :| 0 <= b < |rows| && rows[b] == r[j];
    }
  }

  lemma {:induction false} SameSums<A, B>(f: A -> int, g: B -> int, a: seq<A>, b: seq<B>)
    requires |a| == |b| && forall i :: 0 <= i < |a| ==> f(a[i]) == g(b[i])
    ensures Sum(f, a) == Sum(g, b)
    decreases |a|
  {
    if a != [] {
      SameSums(f, g, a[..|a| - 1], b[..|b| - 1]);
    }
  }

  // ------------------------------------------------------------------ time series

  datatype Bucket = Bucket(ops: nat, feesWei: int, gasWei: int)

  datatype Point = Point(t: int, bucket: Bucket)

  /** The start of the bucket of a time that is not before the window. */
  function BucketStart(start: int, bucketSec: int, ts: int): int
    requires bucketSec > 0
  {
    start + (ts - start) / bucketSec * bucketSec
  }

  function InBucket(start: int, bucketSec: int, t: int): Summary -> bool
    requires bucketSec > 0
  {
    (u: Summary) => start <= u.ts && BucketStart(start, bucketSec, u.ts) == t
  }

  function BucketOf(bigInt: Parser, start: int, bucketSec: int, t: int, us: seq<Summary>): Bucket
    requires bucketSec > 0
  {
    var inside := Filter(InBucket(start, bucketSec, t), us);
    Bucket(|inside|, Sum(FeeOf(bigInt), inside), Sum(GasOf(bigInt), inside))
  }

  function WindowSec(w: Option<int>): (r: int)
    ensures 60 <= r <= 30 * 24 * 3600
  {
    Max(60, Min(w.GetOr(24 * 3600), 30 * 24 * 3600))
  }

  function BucketSec(b: Option<int>, windowSec: int): (r: int)
    requires windowSec >= 60
    ensures 60 <= r <= windowSec
  {
    Max(60, Min(b.GetOr(3600), windowSec))
  }

  /** The points emitted for a window: one per step, from its start to now. */
  ghost predicate Series(bigInt: Parser, us: seq<Summary>, now: int, windowSec: int, bucketSec: int, points: seq<Point>)
    requires bucketSec > 0
  {
    var start := now - windowSec;
    && |points| == windowSec / bucketSec + 1
    && forall i :: 0 <= i < |points| ==>
         points[i] == Point(start + i * bucketSec, BucketOf(bigInt, start, bucketSec, start + i * bucketSec, us))
  }

  lemma {:induction false} BucketIndex(start: int, bucketSec: int, ts: int, i: int)
    requires bucketSec > 0 && start <= ts
    ensures BucketStart(start, bucketSec, ts) == start + i * bucketSec <==> i == (ts - start) / bucketSec
  {
    var q := (ts - start) / bucketSec;
    if BucketStart(start, bucketSec, ts) == start + i * bucketSec {
      assert q * bucketSec == i * bucketSec;
      assert (q - i) * bucketSec == 0;
    }
  }

  /** An operation stamped between the window's start and now falls in exactly one emitted bucket; one stamped
      before the window falls in none. */
  lemma {:induction false} OneBucket(now: int, windowSec: int, bucketSec: int, u: Summary)
    requires 0 < bucketSec <= windowSec
    ensures
      var start := now - windowSec;
      && (start <= u.ts <= now ==>
            exists i :: 0 <= i < windowSec / bucketSec + 1 && InBucket(start, bucketSec, start + i * bucketSec)(u))
      && (forall i, j | InBucket(start, bucketSec, start + i * bucketSec)(u) &&
          InBucket(start, bucketSec, start + j * bucketSec)(u) :: i == j)
      && (u.ts < start ==> forall t :: !InBucket(start, bucketSec, t)(u))
  {
    var start := now - windowSec;
    if start <= u.ts {
      var q := (u.ts - start) / bucketSec;
      BucketIndex(start, bucketSec, u.ts, q);
      assert InBucket(start, bucketSec, start + q * bucketSec)(u);
      forall i | InBucket(start, bucketSec, start + i * bucketSec)(u)
        ensures i == q
      {
        BucketIndex(start, bucketSec, u.ts, i);
      }
      if u.ts <= now {
        DivMonotone(u.ts - start, windowSec, bucketSec);
      }
    }
  }

  lemma {:induction false} MulMonotone(x: nat, y: nat, d: nat)
    requires x <= y
    ensures x * d <= y * d
  {
    assert y * d == x * d + (y - x) * d;
  }

  lemma {:induction false} DivMonotone(a: nat, b: nat, d: nat)
    requires a <= b && d > 0
    ensures a / d <= b / d
  {
    if a / d > b / d {
      MulMonotone(b / d + 1, a / d, d);
    }
  }
}
