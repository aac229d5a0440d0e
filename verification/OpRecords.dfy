/** The chain events the monitor indexes, the joined record per user operation, and ingestion as functions. */
module OpRecords {
  import opened Wrappers
  import opened Sequences
  import opened Sorting
  import opened JsMaps
  import opened Text

  datatype EntryPointEvent = EntryPointEvent(
    ts: int, chainId: int, blockNumber: int, txHash: string, logIndex: int, userOpHash: string, sender: string,
    paymaster: string, nonce: string, success: bool, actualGasCostWei: string, actualGasUsed: string,
    bundler: Option<string>, revertReason: Option<string>)

  datatype PostOpMode = OpSucceeded | OpReverted | PostOpReverted | UnknownMode

  datatype PaymasterEvent = PaymasterEvent(
    ts: int, chainId: int, blockNumber: int, txHash: string, logIndex: int, sender: string, userOpHash: string,
    mode: PostOpMode, actualGasCostWei: string, actualUserOpFeePerGas: string, feeAmount: string)

  datatype Summary = Summary(
    ts: int, chainId: int, blockNumber: int, txHash: string, userOpHash: string, sender: string, paymaster: string,
    bundler: Option<string>, nonce: string, success: bool, actualGasCostWei: string, actualGasUsed: string,
    feeAmount: Option<string>, postOpMode: Option<PostOpMode>, revertReason: Option<string>)

  type Index = JsMap<string, Summary>

  const ZERO_ADDRESS := "0x0000000000000000000000000000000000000000"

  function EntryKey(e: EntryPointEvent): string {
    ToLower(e.userOpHash)
  }

  function PostKey(p: PaymasterEvent): string {
    ToLower(p.userOpHash)
  }

  predicate SameLog(s: Summary, e: EntryPointEvent) {
    ToLower(s.txHash) == ToLower(e.txHash) && s.blockNumber == e.blockNumber
  }

  /** Adds an EntryPoint event, unless the same transaction's record is already there. */
  function IngestEntry(m: Index, e: EntryPointEvent): Index {
    var existing := m.Get(EntryKey(e));
    if existing.Some? && SameLog(existing.value, e) then m
    else
      m.Set(EntryKey(e), Summary(
        e.ts, e.chainId, e.blockNumber, e.txHash, e.userOpHash, e.sender, e.paymaster, e.bundler, e.nonce, e.success,
        e.actualGasCostWei, e.actualGasUsed,
        if existing.Some? then existing.value.feeAmount else None,
        if existing.Some? then existing.value.postOpMode else None,
        if e.revertReason.Some? then e.revertReason
        else if existing.Some? then existing.value.revertReason else None))
  }

  /** The record kept for a paymaster event whose EntryPoint event is not there. */
  function Partial(p: PaymasterEvent): Summary {
    Summary(p.ts, p.chainId, p.blockNumber, p.txHash, p.userOpHash, p.sender, ZERO_ADDRESS, None, "0",
            p.mode == OpSucceeded, p.actualGasCostWei, "0", Some(p.feeAmount), Some(p.mode), None)
  }

  function IngestPost(m: Index, p: PaymasterEvent): Index {
    var existing := m.Get(PostKey(p));
    if existing.None? then m.Set(PostKey(p), Partial(p))
    else m.Set(PostKey(p), existing.value.(feeAmount := Some(p.feeAmount), postOpMode := Some(p.mode)))
  }

  function IngestEntries(m: Index, es: seq<EntryPointEvent>): (r: Index)
    ensures m.Valid() ==> r.Valid()
  {
    if es == [] then m else IngestEntry(IngestEntries(m, es[..|es| - 1]), es[|es| - 1])
  }

  function IngestPosts(m: Index, ps: seq<PaymasterEvent>): (r: Index)
    ensures m.Valid() ==> r.Valid()
  {
    if ps == [] then m else IngestPost(IngestPosts(m, ps[..|ps| - 1]), ps[|ps| - 1])
  }

  // ------------------------------------------------------------------ eviction

  predicate NoNewer(a: Summary, b: Summary) {
    a.ts < b.ts || (a.ts == b.ts && a.blockNumber <= b.blockNumber)
  }

  function DeleteAll(m: Index, us: seq<Summary>): (r: Index)
    ensures m.Valid() ==> r.Valid()
  {
    if us == [] then m else DeleteAll(m, us[..|us| - 1]).Delete(ToLower(us[|us| - 1].userOpHash))
  }

  function Oldest(m: Index, n: nat): (r: seq<Summary>)
    requires m.Valid()
    ensures |r| == Min(n, |m.keys|)
  {
    SortElements(NoNewer, m.Values());
    Sort(NoNewer, m.Values())[..Min(n, |m.keys|)]
  }

  /** Keeps at most max records by deleting the oldest. */
  function Evict(max: nat, m: Index): (r: Index)
    requires m.Valid()
    ensures r.Valid()
  {
    if m.Size() <= max then m else DeleteAll(m, Oldest(m, m.Size() - max))
  }

  ghost predicate Keyed(m: Index) {
    && m.Valid()
    && forall k | k in m.entries :: ToLower(m.entries[k].userOpHash) == k
  }

  lemma {:induction false} IngestEntriesKeyed(m: Index, es: seq<EntryPointEvent>)
    requires Keyed(m)
    ensures Keyed(IngestEntries(m, es))
  {
    if es != [] {
      IngestEntriesKeyed(m, es[..|es| - 1]);
    }
  }

  lemma {:induction false} IngestPostsKeyed(m: Index, ps: seq<PaymasterEvent>)
    requires Keyed(m)
    ensures Keyed(IngestPosts(m, ps))
  {
    if ps != [] {
      IngestPostsKeyed(m, ps[..|ps| - 1]);
    }
  }

  ghost predicate DistinctKeys(us: seq<Summary>) {
    forall i, j :: 0 <= i < j < |us| ==> ToLower(us[i].userOpHash) != ToLower(us[j].userOpHash)
  }

  lemma {:induction false} DeleteAllEntries(m: Index, us: seq<Summary>)
    ensures forall k | k in DeleteAll(m, us).entries :: k in m.entries && DeleteAll(m, us).entries[k] == m.entries[k]
    ensures forall k | k in m.entries ::
              k in DeleteAll(m, us).entries <==> forall i :: 0 <= i < |us| ==> ToLower(us[i].userOpHash) != k
    decreases |us|
  {
    if us != [] {
      var n := |us| - 1;
      DeleteAllEntries(m, us[..n]);
      assert forall i :: 0 <= i < n ==> us[..n][i] == us[i];
    }
  }

  lemma {:induction false} LastStillThere(m: Index, us: seq<Summary>)
    requires us != [] && DistinctKeys(us) && ToLower(us[|us| - 1].userOpHash) in m.entries
    ensures ToLower(us[|us| - 1].userOpHash) in DeleteAll(m, us[..|us| - 1]).entries
  {
    DeleteAllEntries(m, us[..|us| - 1]);
  }

  lemma {:induction false} DeleteAllSize(m: Index, us: seq<Summary>)
    requires m.Valid() && DistinctKeys(us)
    requires forall i :: 0 <= i < |us| ==> ToLower(us[i].userOpHash) in m.entries
    ensures |DeleteAll(m, us).keys| == |m.keys| - |us|
    decreases |us|
  {
    if us != [] {
      var n := |us| - 1;
      assert forall i :: 0 <= i < n ==> us[..n][i] == us[i];
      DeleteAllSize(m, us[..n]);
      LastStillThere(m, us);
      DeleteSize(DeleteAll(m, us[..n]), ToLower(us[n].userOpHash));
    }
  }

  lemma {:induction false} ValuesKeyed(m: Index)
    requires Keyed(m)
    ensures DistinctKeys(m.Values())
    ensures forall u | u in m.Values() :: ToLower(u.userOpHash) in m.entries && m.entries[ToLower(u.userOpHash)] == u
  {
    var v := m.Values();
    assert forall i | 0 <= i < |v| :: m.keys[i] in m.entries && ToLower(v[i].userOpHash) == m.keys[i];
  }

  lemma {:induction false} OldestFacts(m: Index, n: nat)
    requires Keyed(m) && n <= |m.keys|
    ensures
      var r := Oldest(m, n);
      && DistinctKeys(r)
      && (forall u | u in r :: u in m.Values())
      && (forall u, w | u in r && w in m.Values() && w !in r :: NoNewer(u, w))
  {
    var v, r := m.Values(), Oldest(m, n);
    ValuesKeyed(m);
    assert Distinct(v);
    FirstSorted(NoNewer, v, n);
    forall i, j | 0 <= i < j < |r|
      ensures ToLower(r[i].userOpHash) != ToLower(r[j].userOpHash)
    {
      assert r[i] in v && r[j] in v && r[i] != r[j];
    }
  }

  /** Eviction leaves at most max records, changes none it keeps, and removes only records that are no newer, by
      time and then block, than every record it keeps. */
  lemma {:induction false} EvictFacts(max: nat, m: Index)
    requires Keyed(m)
    ensures
      var r := Evict(max, m);
      && Keyed(r) && |r.keys| == Min(|m.keys|, max)
      && (forall k | k in r.entries :: k in m.entries && r.entries[k] == m.entries[k])
      && (forall k, l | k in m.entries && k !in r.entries && l in r.entries :: NoNewer(m.entries[k], r.entries[l]))
  {
    if m.Size() > max {
      var aged := Oldest(m, m.Size() - max);
      OldestFacts(m, m.Size() - max);
      ValuesKeyed(m);
      assert forall i | 0 <= i < |aged| :: aged[i] in aged;
      DeleteAllSize(m, aged);
      DeleteAllEntries(m, aged);
      EvictOldest(m, aged, Evict(max, m));
    }
  }

  lemma {:induction false} EvictOldest(m: Index, aged: seq<Summary>, r: Index)
    requires Keyed(m)
    requires forall u | u in aged :: u in m.Values()
    requires forall u, w | u in aged && w in m.Values() && w !in aged :: NoNewer(u, w)
    requires forall k | k in r.entries :: k in m.entries && r.entries[k] == m.entries[k]
    requires forall k | k in m.entries :: k in r.entries <==>
        forall i :: 0 <= i < |aged| ==> ToLower(aged[i].userOpHash) != k
    ensures forall k, l | k in m.entries && k !in r.entries && l in r.entries :: NoNewer(m.entries[k], r.entries[l])
  {
    ValuesKeyed(m);
    forall k, l | k in m.entries && k !in r.entries && l in r.entries
      ensures NoNewer(m.entries[k], r.entries[l])
    {
      var i :| 0 <= i < |aged| && ToLower(aged[i].userOpHash) == k;
      assert aged[i] in aged && aged[i] == m.entries[k];
      ValuesMember(m, m.entries[l]);
      assert m.entries[l] !in aged;
    }
  }
}
