/**
 The bundler with its fields: mempool entries are objects that steps update in place, and a suspended
 bundling call keeps its own references to the entries it took. Every method is one uninterrupted step
 and refines the corresponding step of `BundlerState`.
 */
module BundlerEngine {
  import opened Wrappers
  import opened Sequences
  import opened Sorting
  import opened JsMaps
  import opened BundlerState

  class Entry {
    const hash: string
    const receivedAt: int
    ghost const id: nat
    var status: Status
    var txHash: Option<string>
    var receipt: Option<string>

    constructor (hash: string, receivedAt: int, ghost id: nat)
      ensures this.hash == hash && this.receivedAt == receivedAt && this.id == id
      ensures status == Pending && txHash == None && receipt == None
    {
      this.hash, this.receivedAt, this.id := hash, receivedAt, id;
      status, txHash, receipt := Pending, None, None;
    }
  }

  /** A suspended bundling call: the entries it took and where it waits. */
  datatype Call = Call(pending: seq<Entry>, pc: Pc)

  ghost function View(e: Entry): EntryState
    reads e
  {
    EntryState(e.hash, e.receivedAt, e.status, e.txHash, e.receipt)
  }

  ghost function Ids(s: seq<Entry>): (r: seq<nat>)
    ensures |r| == |s| && forall i :: 0 <= i < |s| ==> r[i] == s[i].id
  {
    Map((e: Entry) => e.id, s)
  }

  ghost function PoolIds(m: JsMap<string, Entry>): (r: JsMap<string, nat>)
    ensures m.Valid() ==> r.Valid()
  {
    JsMap(m.keys, map h | h in m.entries :: m.entries[h].id)
  }

  lemma {:induction false} PoolIdsSet(m: JsMap<string, Entry>, h: string, e: Entry)
    ensures PoolIds(m.Set(h, e)) == PoolIds(m).Set(h, e.id)
  {
    assert PoolIds(m.Set(h, e)).entries == PoolIds(m).Set(h, e.id).entries;
  }

  lemma {:induction false} PoolIdsValues(m: JsMap<string, Entry>)
    requires m.Valid()
    ensures Ids(m.Values()) == PoolIds(m).Values()
  {
  }

  ghost function Tasks(calls: seq<Call>): (r: seq<Task>)
    ensures |r| == |calls|
    ensures forall i :: 0 <= i < |r| ==> r[i] == Task(Ids(calls[i].pending), calls[i].pc)
  {
    Map((c: Call) => Task(Ids(c.pending), c.pc), calls)
  }

  lemma {:induction false} FilterIdsSnoc(p: nat -> bool, prefix: seq<Entry>, e: Entry, kept: seq<Entry>)
    requires Ids(kept) == Filter(p, Ids(prefix))
    ensures Ids(if p(e.id) then kept + [e] else kept) == Filter(p, Ids(prefix + [e]))
  {
    FilterSnoc(p, Ids(prefix), e.id);
    assert Ids(prefix + [e]) == Ids(prefix) + [e.id];
    assert Ids(kept + [e]) == Ids(kept) + [e.id];
  }

  predicate Older(a: Entry, b: Entry) {
    a.receivedAt <= b.receivedAt
  }

  lemma {:induction false} SortIds(leq: (nat, nat) -> bool, pending: seq<Entry>)
    requires forall a: Entry, b: Entry | a in pending && b in pending :: Older(a, b) == leq(a.id, b.id)
    ensures Ids(Sort(Older, pending)) == Sort(leq, Ids(pending))
    ensures forall e | e in Sort(Older, pending) :: e in pending
  {
    SortMap((e: Entry) => e.id, Older, leq, pending);
    forall e | e in Sort(Older, pending)
      ensures e in pending
    {
      SortMember(Older, pending, e);
    }
  }

  /** Sorting and cutting the pending objects is the selection on their ids. */
  lemma {:induction false} SelectionIds(size: int, s: State, pending: seq<Entry>, sorted: seq<Entry>)
    requires s.pool.Valid() && Ids(pending) == PendingIds(s)
    requires forall e | e in pending :: e.id < |s.entries| && s.entries[e.id].receivedAt == e.receivedAt
    requires sorted == Sort(Older, pending)
    ensures Ids(sorted[..Min(|sorted|, Cap(size))]) == SelectPending(size, s)
    ensures forall e | e in sorted :: e in pending
  {
    var leq := (a: nat, b: nat) => ReceivedAt(s, a) <= ReceivedAt(s, b);
    SortIds(leq, pending);
    var ids := Sort(leq, PendingIds(s));
    assert Ids(sorted) == ids;
    assert SelectPending(size, s) == ids[..Min(|ids|, Cap(size))];
  }

  class Engine {
    const autoBundleMempoolSize: int
    var mempool: JsMap<string, Entry>
    var bundlingInFlight: bool
    var calls: seq<Call>
    ghost var accepted: seq<Entry>
    ghost var bundles: seq<seq<nat>>

    ghost predicate Valid()
      reads this
    {
      && (forall i :: 0 <= i < |accepted| ==> accepted[i].id == i)
      && mempool.Valid()
      && (forall h | h in mempool.entries :: mempool.entries[h] in accepted)
      && (forall c | c in calls :: forall e | e in c.pending :: e in accepted)
    }

    ghost function Views(): (r: seq<EntryState>)
      reads this, accepted
      ensures |r| == |accepted|
      ensures forall i :: 0 <= i < |r| ==> r[i] == View(accepted[i])
    {
      var a := accepted;
      seq(|a|, i requires 0 <= i < |a| reads a => View(a[i]))
    }

    /** The state of the protocol that these fields represent. */
    ghost function Abs(): (s: State)
      reads this, accepted
      requires Valid()
      ensures s.pool.Valid()
    {
      State(Views(), PoolIds(mempool), bundlingInFlight, Tasks(calls), bundles)
    }

    constructor (autoBundleMempoolSize: int)
      ensures Valid() && Abs() == INIT
      ensures this.autoBundleMempoolSize == autoBundleMempoolSize
    {
      this.autoBundleMempoolSize := autoBundleMempoolSize;
      mempool, bundlingInFlight, calls := Empty(), false, [];
      accepted, bundles := [], [];
      new;
      assert PoolIds(Empty()) == Empty();
    }

    /** An operation that passed admission enters the mempool under its hash. */
    method AcceptOperation(hash: string, now: int)
      requires Valid()
      modifies this
      ensures Valid()
      ensures Abs() == Step(autoBundleMempoolSize, old(Abs()), Accept(hash, now))
    {
      var entry := new Entry(hash, now, |accepted|);
      mempool := mempool.Set(hash, entry);
      accepted := accepted + [entry];
      assert Views() == old(Views()) + [View(entry)];
      PoolIdsSet(old(mempool), hash, entry);
    }

    ghost predicate ReadsPending(all: seq<Entry>, isPending: nat -> bool)
      reads this, all
    {
      forall i :: 0 <= i < |all| ==> all[i] in accepted && isPending(all[i].id) == (all[i].status == Pending)
    }

    method FilterPending(all: seq<Entry>, ghost isPending: nat -> bool) returns (pending: seq<Entry>)
      requires ReadsPending(all, isPending)
      ensures forall e | e in pending :: e in accepted
      ensures Ids(pending) == Filter(isPending, Ids(all))
    {
      pending := [];
      for i := 0 to |all|
        invariant forall e | e in pending :: e in accepted
        invariant Ids(pending) == Filter(isPending, Ids(all[..i]))
      {
        assert all[..i + 1] == all[..i] + [all[i]];
        FilterIdsSnoc(isPending, all[..i], all[i], pending);
        if all[i].status == Pending {
          pending := pending + [all[i]];
        }
      }
      assert all[..|all|] == all;
    }

    method PendingEntries() returns (pending: seq<Entry>)
      requires Valid()
      ensures forall e | e in pending :: e in accepted
      ensures Ids(pending) == PendingIds(Abs())
    {
      var all := mempool.Values();
      ghost var s := Abs();
      ghost var isPending := (id: nat) => IsPending(s, id);
      PoolIdsValues(mempool);
      forall i | 0 <= i < |all|
        ensures all[i] in accepted && isPending(all[i].id) == (all[i].status == Pending)
      {
        assert mempool.keys[i] in mempool.entries;
        assert Views()[all[i].id] == View(all[i]);
      }
      pending := FilterPending(all, isPending);
    }

    /** The oldest pending entries, at most one bundle of them. */
    method SelectOldest() returns (selected: seq<Entry>)
      requires Valid()
      ensures forall e | e in selected :: e in accepted
      ensures Ids(selected) == SelectPending(autoBundleMempoolSize, Abs())
    {
      var pending := PendingEntries();
      forall e | e in pending
        ensures e.id < |Abs().entries| && Abs().entries[e.id].receivedAt == e.receivedAt
      {
        assert Views()[e.id] == View(e);
      }
      var sorted := Sort<Entry>(Older, pending);
      SelectionIds(autoBundleMempoolSize, Abs(), pending, sorted);
      var maxOps := if autoBundleMempoolSize > 0 then autoBundleMempoolSize else 1;
      selected := sorted[..Min(|sorted|, Max(1, Min(maxOps, 25)))];
    }

    /** The part of a bundling call before its first suspension: test the lock, select, take the lock. */
    method AttemptBundle(force: bool)
      requires Valid()
      modifies this
      ensures Valid()
      ensures Abs() == Attempt(autoBundleMempoolSize, old(Abs()), force)
      ensures accepted == old(accepted)
    {
      if bundlingInFlight {
        return;
      }
      var pending := SelectOldest();
      if (!force && |pending| == 0) || (!force && |pending| < autoBundleMempoolSize) || |pending| == 0 {
        return;
      }
      TakeLock(pending);
    }

    /** Takes the lock and suspends with the selected entries. */
    method TakeLock(pending: seq<Entry>)
      requires Valid()
      requires forall e | e in pending :: e in accepted
      modifies this`bundlingInFlight, this`calls, this`bundles
      ensures Valid()
      ensures Abs() == old(Abs()).(inFlight := true, tasks := old(Abs()).tasks + [Task(Ids(pending), Preparing)],
                                   bundles := old(Abs()).bundles + [Ids(pending)])
    {
      bundlingInFlight := true;
      calls := calls + [Call(pending, Preparing)];
      bundles := bundles + [Ids(pending)];
      assert Tasks(calls) == Tasks(old(calls)) + [Task(Ids(pending), Preparing)];
    }

    method OnTick()
      requires Valid()
      modifies this
      ensures Valid()
      ensures Abs() == Step(autoBundleMempoolSize, old(Abs()), Tick)
    {
      AttemptBundle(false);
    }

    /** The check that follows an accept. */
    method OnAccepted()
      requires Valid()
      modifies this
      ensures Valid()
      ensures Abs() == Step(autoBundleMempoolSize, old(Abs()), Forced)
    {
      if autoBundleMempoolSize <= 1 {
        AttemptBundle(true);
      } else if mempool.Size() >= autoBundleMempoolSize {
        AttemptBundle(true);
      }
    }

    /** The transaction was sent: every entry of the call is marked, in order. */
    method OnSubmitted(i: nat, tx: string)
      requires Valid()
      requires i < |calls| && calls[i].pc.Preparing?
      modifies this`calls, accepted
      ensures Valid()
      ensures Abs() == Step(autoBundleMempoolSize, old(Abs()), Submit(i, tx))
    {
      var pending := calls[i].pending;
      assert calls[i] in calls;
      for k := 0 to |pending|
        invariant Valid() && calls == old(calls)
        invariant Views() == MarkSent(old(Views()), Ids(pending[..k]), tx)
      {
        ghost var ids := Ids(pending[..k]);
        assert Ids(pending[..k + 1]) == ids + [pending[k].id];
        assert pending[k] in accepted;
        pending[k].status := Sent;
        pending[k].txHash := Some(tx);
      }
      assert pending[..|pending|] == pending;
      calls := calls[i := calls[i].(pc := Submitted(0))];
      assert Tasks(calls) == Tasks(old(calls))[i := Tasks(old(calls))[i].(pc := Submitted(0))];
    }

    /** One more entry of a mined transaction is settled. */
    method OnMined(i: nat, receipt: string)
      requires Valid()
      requires i < |calls| && calls[i].pc.Submitted? && calls[i].pc.mined < |calls[i].pending|
      modifies this`calls, accepted
      ensures Valid()
      ensures Abs() == Step(autoBundleMempoolSize, old(Abs()), MineNext(i, receipt))
    {
      var done := calls[i].pc.mined;
      var e := calls[i].pending[done];
      assert calls[i] in calls && e in accepted;
      e.status := Mined;
      e.receipt := Some(receipt);
      calls := calls[i := calls[i].(pc := Submitted(done + 1))];
      assert Tasks(calls) == Tasks(old(calls))[i := Tasks(old(calls))[i].(pc := Submitted(done + 1))];
      assert Views() == old(Views())[e.id := old(Views())[e.id].(status := Mined, receipt := Some(receipt))];
    }

    /** Sending or waiting failed: every entry of the call fails. */
    method OnFailed(i: nat)
      requires Valid()
      requires i < |calls| && (calls[i].pc.Preparing? || calls[i].pc == Submitted(0))
      modifies this`calls, accepted
      ensures Valid()
      ensures Abs() == Step(autoBundleMempoolSize, old(Abs()), Fail(i))
    {
      var pending := calls[i].pending;
      assert calls[i] in calls;
      for k := 0 to |pending|
        invariant Valid() && calls == old(calls)
        invariant Views() == MarkFailed(old(Views()), Ids(pending[..k]))
      {
        ghost var ids := Ids(pending[..k]);
        assert Ids(pending[..k + 1]) == ids + [pending[k].id];
        assert pending[k] in accepted;
        pending[k].status := Failed;
      }
      assert pending[..|pending|] == pending;
      calls := calls[i := calls[i].(pc := Failing)];
      assert Tasks(calls) == Tasks(old(calls))[i := Tasks(old(calls))[i].(pc := Failing)];
    }

    /** The call returns and releases the lock. */
    method OnEnd(i: nat)
      requires Valid()
      requires i < |calls|
      requires calls[i].pc.Failing? || (calls[i].pc.Submitted? && calls[i].pc.mined == |calls[i].pending|)
      modifies this`calls, this`bundlingInFlight
      ensures Valid()
      ensures Abs() == Step(autoBundleMempoolSize, old(Abs()), End(i))
    {
      calls := calls[..i] + calls[i + 1..];
      bundlingInFlight := false;
      assert Tasks(calls) == Tasks(old(calls))[..i] + Tasks(old(calls))[i + 1..];
    }
  }
}
