/** The analytics store: an in-memory index by operation hash, updated in place and read by aggregation loops. */
module OpStore {
  import opened Wrappers
  import opened Sequences
  import opened Sorting
  import opened JsMaps
  import opened Text
  import opened OpRecords
  import opened OpMetrics

  /** One pass with counters and a set of senders. */
  method SummarizeOps(bigInt: Parser, us: seq<Summary>) returns (r: MetricsSummary)
    ensures r == Summarize(bigInt, us)
  {
    var uniqueSenders: set<string> := {};
    var succeeded, failed: nat, totalGas, totalFee := 0, 0, 0, 0;
    for i := 0 to |us|
      invariant uniqueSenders == SenderKeys(us[..i])
      invariant succeeded == |Filter(Succeeded, us[..i])| && failed == |Filter(FailedOp, us[..i])|
      invariant totalGas == Sum(GasOf(bigInt), us[..i]) && totalFee == Sum(FeeOf(bigInt), us[..i])
    {
      var u := us[i];
      assert us[..i + 1] == us[..i] + [u];
      AddSums(bigInt, us[..i], u);
      SenderKeysSnoc(us[..i], u);
      uniqueSenders := uniqueSenders + {ToLower(u.sender)};
      if u.success {
        succeeded := succeeded + 1;
      } else {
        failed := failed + 1;
      }
      totalGas := totalGas + Gas(bigInt, u);
      totalFee := totalFee + Fee(bigInt, u);
    }
    assert us[..|us|] == us;
    r := MetricsSummary(|us|, succeeded, failed, |uniqueSenders|, totalGas, totalFee);
  }

  /** Adds one operation to a sender's running totals. */
  method Accumulate(bigInt: Parser, row: SenderTotals, u: Summary) returns (cur: SenderTotals)
    ensures cur == AddOp(bigInt, row, u)
  {
    cur := row.(total := row.total + 1);
    if u.success {
      cur := cur.(succeeded := cur.succeeded + 1);
    } else {
      cur := cur.(failed := cur.failed + 1);
    }
    cur := cur.(lastOpTs := Max(cur.lastOpTs, u.ts));
    cur := cur.(gasWei := cur.gasWei + Gas(bigInt, u));
    cur := cur.(feeWei := cur.feeWei + Fee(bigInt, u));
  }

  lemma {:induction false} SenderTableSnoc(bigInt: Parser, us: seq<Summary>, i: nat)
    requires i < |us|
    ensures
      var table := SenderTable(bigInt, us[..i]);
      SenderTable(bigInt, us[..i + 1])
      == table.Set(SenderKey(us[i]), AddOp(bigInt, table.Get(SenderKey(us[i])).GetOr(NoOps(us[i].sender)), us[i]))
  {
    assert us[..i + 1][..i] == us[..i];
  }

  /** One pass that keeps running totals per sender. */
  method TabulateSenders(bigInt: Parser, us: seq<Summary>) returns (bySender: JsMap<string, SenderTotals>)
    ensures bySender == SenderTable(bigInt, us)
  {
    bySender := Empty();
    for i := 0 to |us|
      invariant bySender == SenderTable(bigInt, us[..i])
    {
      var key := ToLower(us[i].sender);
      var cur := bySender.Get(key).GetOr(SenderTotals(us[i].sender, 0, 0, 0, 0, 0, 0));
      cur := Accumulate(bigInt, cur, us[i]);
      SenderTableSnoc(bigInt, us, i);
      bySender := bySender.Set(key, cur);
    }
    assert us[..|us|] == us;
  }

  /** Counts the failed operations by reason. */
  method CountReasons(us: seq<Summary>) returns (reasons: JsMap<string, nat>)
    ensures reasons == ReasonTable(us)
  {
    reasons := Empty();
    for i := 0 to |us|
      invariant reasons == ReasonTable(us[..i])
    {
      assert us[..i + 1][..i] == us[..i];
      var u := us[i];
      if !u.success {
        var given := u.revertReason.Some? && u.revertReason.value != "";
        var r := if given then u.revertReason.value else "Unknown / Reverted";
        reasons := reasons.Set(r, reasons.Get(r).GetOr(0) + 1);
      }
    }
    assert us[..|us|] == us;
  }

  /** Deletes records one after the other. */
  method DeleteEach(m: Index, aged: seq<Summary>) returns (r: Index)
    ensures r == DeleteAll(m, aged)
  {
    r := m;
    for i := 0 to |aged|
      invariant r == DeleteAll(m, aged[..i])
    {
      assert aged[..i + 1][..i] == aged[..i];
      r := r.Delete(ToLower(aged[i].userOpHash));
    }
    assert aged[..|aged|] == aged;
  }

  function ReadBucket(buckets: map<int, Bucket>, t: int): Bucket {
    if t in buckets then buckets[t] else Bucket(0, 0, 0)
  }

  /** The buckets hold exactly the operations stamped in them. */
  ghost predicate Filled(bigInt: Parser, start: int, bucketSec: int, us: seq<Summary>, buckets: map<int, Bucket>)
    requires bucketSec > 0
  {
    forall t :: ReadBucket(buckets, t) == BucketOf(bigInt, start, bucketSec, t, us)
  }

  lemma {:induction false} FilledStep(bigInt: Parser, start: int, bucketSec: int, us: seq<Summary>, u: Summary,
      buckets: map<int, Bucket>)
    requires bucketSec > 0 && Filled(bigInt, start, bucketSec, us, buckets)
    ensures u.ts < start ==> Filled(bigInt, start, bucketSec, us + [u], buckets)
    ensures u.ts >= start ==>
      var b := BucketStart(start, bucketSec, u.ts);
      var cur := ReadBucket(buckets, b);
      Filled(bigInt, start, bucketSec, us + [u],
             buckets[b := Bucket(cur.ops + 1, cur.feesWei + Fee(bigInt, u), cur.gasWei + Gas(bigInt, u))])
  {
    forall t
      ensures BucketOf(bigInt, start, bucketSec, t, us + [u]) == AddToBucket(bigInt, start, bucketSec, t, us, u)
    {
      BucketStep(bigInt, start, bucketSec, t, us, u);
    }
  }

  function AddToBucket(bigInt: Parser, start: int, bucketSec: int, t: int, us: seq<Summary>, u: Summary): Bucket
    requires bucketSec > 0
  {
    var b := BucketOf(bigInt, start, bucketSec, t, us);
    if start <= u.ts && BucketStart(start, bucketSec, u.ts) == t
    then Bucket(b.ops + 1, b.feesWei + Fee(bigInt, u), b.gasWei + Gas(bigInt, u)) else b
  }

  lemma {:induction false} BucketStep(bigInt: Parser, start: int, bucketSec: int, t: int, us: seq<Summary>, u: Summary)
    requires bucketSec > 0
    ensures BucketOf(bigInt, start, bucketSec, t, us + [u]) == AddToBucket(bigInt, start, bucketSec, t, us, u)
  {
    var inside := Filter(InBucket(start, bucketSec, t), us);
    FilterSnoc(InBucket(start, bucketSec, t), us, u);
    AddSums(bigInt, inside, u);
    assert inside + [] == inside;
  }

  /** Steps of d from zero that first pass w. */
  lemma {:induction false} StepCount(w: nat, d: nat, n: nat)
    requires d > 0 && n > 0
    requires (n - 1) * d <= w < n * d
    ensures n == w / d + 1
  {
    assert w / d * d <= w < w / d * d + d;
    if n - 1 < w / d {
      MulMonotone(n, w / d, d);
    } else if w / d < n - 1 {
      MulMonotone(w / d + 1, n - 1, d);
    }
  }

  /** Puts one operation into its bucket, if the window has one for it. */
  method AddToBuckets(bigInt: Parser, ghost us: seq<Summary>, u: Summary, start: int, bucketSec: int,
      buckets: map<int, Bucket>)
    returns (r: map<int, Bucket>)
    requires bucketSec > 0 && Filled(bigInt, start, bucketSec, us, buckets)
    ensures Filled(bigInt, start, bucketSec, us + [u], r)
  {
    hide Filled, Gas, Fee, BucketOf;
    FilledStep(bigInt, start, bucketSec, us, u, buckets);
    if u.ts < start {
      return buckets;
    }
    var b := start + (u.ts - start) / bucketSec * bucketSec;
    var cur := if b in buckets then buckets[b] else Bucket(0, 0, 0);
    cur := cur.(ops := cur.ops + 1);
    cur := cur.(gasWei := cur.gasWei + Gas(bigInt, u));
    cur := cur.(feesWei := cur.feesWei + Fee(bigInt, u));
    r := buckets[b := cur];
  }

  /** Fills the buckets in one pass over the operations. */
  method FillBuckets(bigInt: Parser, us: seq<Summary>, start: int, bucketSec: int) returns (buckets: map<int, Bucket>)
    requires bucketSec > 0
    ensures Filled(bigInt, start, bucketSec, us, buckets)
  {
    buckets := map[];
    for i := 0 to |us|
      invariant Filled(bigInt, start, bucketSec, us[..i], buckets)
    {
      assert us[..i + 1] == us[..i] + [us[i]];
      buckets := AddToBuckets(bigInt, us[..i], us[i], start, bucketSec, buckets);
    }
    assert us[..|us|] == us;
  }

  /** One point per step, from the start of the window to now. */
  method Emit(bigInt: Parser, us: seq<Summary>, start: int, now: int, bucketSec: int, buckets: map<int, Bucket>)
    returns (points: seq<Point>)
    requires bucketSec > 0 && start <= now
    requires Filled(bigInt, start, bucketSec, us, buckets)
    ensures |points| == (now - start) / bucketSec + 1
    ensures forall i :: 0 <= i < |points| ==>
              points[i] == Point(start + i * bucketSec, BucketOf(bigInt, start, bucketSec, start + i * bucketSec, us))
  {
    points := [];
    var t := start;
    while t <= now
      invariant t == start + |points| * bucketSec
      invariant t - bucketSec <= now
      invariant forall i :: 0 <= i < |points| ==>
                  points[i] == Point(start + i * bucketSec,
                      BucketOf(bigInt, start, bucketSec, start + i * bucketSec, us))
      decreases now - t
    {
      assert ReadBucket(buckets, t) == BucketOf(bigInt, start, bucketSec, t, us);
      points := points + [Point(t, if t in buckets then buckets[t] else Bucket(0, 0, 0))];
      t := t + bucketSec;
    }
    StepCount(now - start, bucketSec, |points|);
  }

  class UserOpAnalyticsStore {
    const max: nat
    const bigInt: Parser
    var byHash: Index

    /** Keys are the records' own hashes, and retention holds. */
    ghost predicate Valid()
      reads this
    {
      Keyed(byHash) && |byHash.keys| <= max
    }

    constructor (max: int, bigInt: Parser)
      ensures Valid() && byHash == Empty()
      ensures this.max == Max(1, max) && this.bigInt == bigInt
    {
      this.max := Max(1, max);
      this.bigInt := bigInt;
      byHash := Empty();
    }

    method IngestEntryPointEvents(events: seq<EntryPointEvent>)
      requires Valid()
      modifies this
      ensures Valid()
      ensures byHash == Evict(max, IngestEntries(old(byHash), events))
    {
      for i := 0 to |events|
        invariant Keyed(byHash)
        invariant byHash == IngestEntries(old(byHash), events[..i])
      {
        assert events[..i + 1][..i] == events[..i];
        IngestEntriesKeyed(old(byHash), events[..i + 1]);
        var e := events[i];
        var key := ToLower(e.userOpHash);
        var existing := byHash.Get(key);
        if existing.Some? && ToLower(existing.value.txHash) == ToLower(e.txHash) &&
            existing.value.blockNumber == e.blockNumber {
          continue;
        }
        var next := Summary(
          e.ts, e.chainId, e.blockNumber, e.txHash, e.userOpHash, e.sender, e.paymaster, e.bundler, e.nonce, e.success,
          e.actualGasCostWei, e.actualGasUsed,
          if existing.Some? then existing.value.feeAmount else None,
          if existing.Some? then existing.value.postOpMode else None,
          if e.revertReason.Some? then e.revertReason
          else if existing.Some? then existing.value.revertReason else None);
        byHash := byHash.Set(key, next);
      }
      assert events[..|events|] == events;
      EvictIfNeeded();
    }

    method IngestPaymasterEvents(events: seq<PaymasterEvent>)
      requires Valid()
      modifies this
      ensures Valid()
      ensures byHash == Evict(max, IngestPosts(old(byHash), events))
    {
      for i := 0 to |events|
        invariant Keyed(byHash)
        invariant byHash == IngestPosts(old(byHash), events[..i])
      {
        assert events[..i + 1][..i] == events[..i];
        IngestPostsKeyed(old(byHash), events[..i + 1]);
        var p := events[i];
        var key := ToLower(p.userOpHash);
        var existing := byHash.Get(key);
        if existing.None? {
          byHash := byHash.Set(key, Summary(
            p.ts, p.chainId, p.blockNumber, p.txHash, p.userOpHash, p.sender, ZERO_ADDRESS, None, "0",
            p.mode == OpSucceeded, p.actualGasCostWei, "0", Some(p.feeAmount), Some(p.mode), None));
          continue;
        }
        byHash := byHash.Set(key, existing.value.(feeAmount := Some(p.feeAmount), postOpMode := Some(p.mode)));
      }
      assert events[..|events|] == events;
      EvictIfNeeded();
    }

    method EvictIfNeeded()
      requires Keyed(byHash)
      modifies this
      ensures Valid()
      ensures byHash == Evict(max, old(byHash))
    {
      EvictFacts(max, byHash);
      if byHash.Size() <= max {
        return;
      }
      var removeCount := byHash.Size() - max;
      var aged := Sort(NoNewer, byHash.Values());
      SortElements(NoNewer, byHash.Values());
      aged := aged[..removeCount];
      byHash := DeleteEach(byHash, aged);
    }

    method ComputeSummary() returns (r: MetricsSummary)
      requires Valid()
      ensures r == Summarize(bigInt, byHash.Values())
    {
      r := SummarizeOps(bigInt, byHash.Values());
    }

    method PerSenderMetrics() returns (rows: seq<SenderTotals>)
      requires Valid()
      ensures rows == SenderRows(bigInt, byHash.Values())
    {
      var bySender := TabulateSenders(bigInt, byHash.Values());
      rows := Sort(LaterOp, bySender.Values());
    }

    method FailureMetrics() returns (rows: seq<Failure>)
      requires Valid()
      ensures rows == FailureRows(byHash.Values())
    {
      var reasons := CountReasons(byHash.Values());
      rows := Sort(MoreOften, FailuresOf(reasons));
    }

    method Timeseries(now: int, windowParam: Option<int>, bucketParam: Option<int>) returns (points: seq<Point>)
      requires Valid()
      ensures Series(bigInt, byHash.Values(), now, WindowSec(windowParam),
          BucketSec(bucketParam, WindowSec(windowParam)), points)
    {
      var windowSec := Max(60, Min(windowParam.GetOr(24 * 3600), 30 * 24 * 3600));
      var bucketSec := Max(60, Min(bucketParam.GetOr(3600), windowSec));
      var start := now - windowSec;
      var buckets := FillBuckets(bigInt, byHash.Values(), start, bucketSec);
      points := Emit(bigInt, byHash.Values(), start, now, bucketSec, buckets);
      assert now - start == windowSec;
    }
  }
}
