/** Cutting one user operation's logs out of a bundle transaction's receipt. */
module ReceiptLogs {
  import opened Wrappers
  import opened Sequences
  import opened Text

  /** The first topic, as far as the cut looks at it. */
  datatype Topic = BeforeExecution | UserOperationEvent | OtherTopic

  /** `hash` is the second topic, present or not; `payload` stands for the rest of the log. */
  datatype Log = Log(topic: Topic, hash: Option<string>, payload: string)

  /** What a log is to the operation whose logs are wanted. */
  datatype Kind = Marker | Own | Foreign | Plain

  function KindOf(userOpHash: string, l: Log): Kind {
    match l.topic
    case BeforeExecution => Marker
    case UserOperationEvent =>
      if l.hash.Some? && ToLower(l.hash.value) == ToLower(userOpHash) then Own else Foreign
    case OtherTopic => Plain
  }

  /** The kinds of a receipt's logs: all the cut depends on. */
  function Kinds(userOpHash: string, logs: seq<Log>): (r: seq<Kind>)
    ensures |r| == |logs|
    ensures forall i :: 0 <= i < |r| ==> r[i] == KindOf(userOpHash, logs[i])
  {
    seq(|logs|, i requires 0 <= i < |logs| => KindOf(userOpHash, logs[i]))
  }

  /** The last index of a kind, or -1. */
  function LastIndex(k: Kind, kinds: seq<Kind>): (i: int)
    ensures -1 <= i < |kinds|
    ensures i >= 0 ==> kinds[i] == k
    ensures forall j :: i < j < |kinds| ==> kinds[j] != k
  {
    if kinds == [] then -1
    else if kinds[|kinds| - 1] == k then |kinds| - 1
    else LastIndex(k, kinds[..|kinds| - 1])
  }

  /** The first index of a kind, or the length. */
  function FirstIndex(k: Kind, kinds: seq<Kind>): (i: nat)
    ensures i <= |kinds|
    ensures i < |kinds| ==> kinds[i] == k
    ensures forall j :: 0 <= j < i ==> kinds[j] != k
  {
    if kinds == [] || kinds[0] == k then 0 else 1 + FirstIndex(k, kinds[1..])
  }

  /** A cut starts after the last marker; without one, after the last foreign event that comes before any own
      event. */
  function CutStart(kinds: seq<Kind>): (i: int)
    ensures -1 <= i < |kinds|
  {
    var marker := LastIndex(Marker, kinds);
    if marker >= 0 then marker else LastIndex(Foreign, kinds[..FirstIndex(Own, kinds)])
  }

  /** A cut ends before the last own event or marker, whichever is later; -1 when there is neither. */
  function CutEnd(kinds: seq<Kind>): (i: int)
    ensures -1 <= i < |kinds|
  {
    Max(LastIndex(Marker, kinds), LastIndex(Own, kinds))
  }

  /** `Array.prototype.slice` for bounds that are not negative. */
  function Slice(logs: seq<Log>, from: nat, to: nat): seq<Log> {
    var end := Min(to, |logs|);
    if from < end then logs[from..end] else []
  }

  function Cut(userOpHash: string, logs: seq<Log>): seq<Log> {
    var kinds := Kinds(userOpHash, logs);
    if CutEnd(kinds) == -1 then logs else Slice(logs, CutStart(kinds) + 1, CutEnd(kinds))
  }

  lemma {:induction false} LastIndexSnoc(k: Kind, kinds: seq<Kind>, x: Kind)
    ensures LastIndex(k, kinds + [x]) == if x == k then |kinds| else LastIndex(k, kinds)
  {
    assert (kinds + [x])[..|kinds|] == kinds;
  }

  lemma {:induction false} FirstIndexSnoc(k: Kind, kinds: seq<Kind>, x: Kind)
    ensures FirstIndex(k, kinds + [x])
      == if FirstIndex(k, kinds) < |kinds| || x == k then FirstIndex(k, kinds) else |kinds| + 1
  {
    if kinds != [] && kinds[0] != k {
      assert (kinds + [x])[1..] == kinds[1..] + [x];
      FirstIndexSnoc(k, kinds[1..], x);
    }
  }

  /** One iteration of the scan, as a fact about the cut of a longer prefix. */
  lemma {:induction false} CutSnoc(kinds: seq<Kind>, x: Kind)
    ensures
      var start, end := CutStart(kinds), CutEnd(kinds);
      var start', end' := CutStart(kinds + [x]), CutEnd(kinds + [x]);
      match x
      case Marker => start' == end' == |kinds|
      case Own => start' == start && end' == |kinds|
      case Foreign => end' == end && start' == if end == -1 then |kinds| else start
      case Plain => start' == start && end' == end
  {
    LastIndexSnoc(Marker, kinds, x);
    LastIndexSnoc(Own, kinds, x);
    FirstIndexSnoc(Own, kinds, x);
    var f := FirstIndex(Own, kinds);
    if f < |kinds| {
      assert (kinds + [x])[..f] == kinds[..f];
    } else {
      assert kinds[..f] == kinds;
      assert (kinds + [x])[..|kinds|] == kinds && (kinds + [x])[..|kinds| + 1] == kinds + [x];
      LastIndexSnoc(Foreign, kinds, x);
    }
  }

  lemma {:induction false} ScanStep(kinds: seq<Kind>, n: nat)
    requires n < |kinds|
    ensures
      var start, end := CutStart(kinds[..n]), CutEnd(kinds[..n]);
      match kinds[n]
      case Marker => CutStart(kinds[..n + 1]) == n && CutEnd(kinds[..n + 1]) == n
      case Own => CutStart(kinds[..n + 1]) == start && CutEnd(kinds[..n + 1]) == n
      case Foreign => CutEnd(kinds[..n + 1]) == end && CutStart(kinds[..n + 1]) == if end == -1 then n else start
      case Plain => CutStart(kinds[..n + 1]) == start && CutEnd(kinds[..n + 1]) == end
  {
    assert kinds[..n + 1] == kinds[..n] + [kinds[n]];
    CutSnoc(kinds[..n], kinds[n]);
  }

  /** The scan over a receipt's logs returns exactly the cut. */
  method FilterLogsForUserOp(userOpHash: string, logs: seq<Log>) returns (r: seq<Log>)
    ensures r == Cut(userOpHash, logs)
  {
    ghost var kinds := Kinds(userOpHash, logs);
    var startIndex, endIndex := -1, -1;
    for index := 0 to |logs|
      invariant startIndex == CutStart(kinds[..index])
      invariant endIndex == CutEnd(kinds[..index])
    {
      var log := logs[index];
      ScanStep(kinds, index);
      if log.topic.BeforeExecution? {
        startIndex, endIndex := index, index;
      } else if log.topic.UserOperationEvent? {
        if log.hash.Some? && ToLower(log.hash.value) == ToLower(userOpHash) {
          endIndex := index;
        } else if endIndex == -1 {
          startIndex := index;
        }
      }
    }
    assert kinds[..|logs|] == kinds;
    if endIndex == -1 {
      return logs;
    }
    return Slice(logs, startIndex + 1, endIndex);
  }

  // ------------------------------------------------------------------ receipts of a bundle

  /** What one operation contributes to a receipt: its own logs, then its event. */
  datatype OpLogs = OpLogs(segment: seq<Log>, hash: string, payload: string) {
    function Event(): Log {
      Log(UserOperationEvent, Some(hash), payload)
    }
  }

  ghost predicate Quiet(logs: seq<Log>) {
    forall i :: 0 <= i < |logs| ==> logs[i].topic.OtherTopic?
  }

  /** Distinct hashes, and segments with nothing the scan reacts to. */
  ghost predicate WellFormed(ops: seq<OpLogs>) {
    && (forall i :: 0 <= i < |ops| ==> Quiet(ops[i].segment))
    && (forall i, j :: 0 <= i < j < |ops| ==> ToLower(ops[i].hash) != ToLower(ops[j].hash))
  }

  /** The logs of operations one after the other. */
  function Layout(ops: seq<OpLogs>): seq<Log> {
    if ops == [] then [] else ops[0].segment + [ops[0].Event()] + Layout(ops[1..])
  }

  function OwnLogs(op: OpLogs): seq<Log> {
    op.segment + [op.Event()]
  }

  lemma {:induction false} Assoc(a: seq<Log>, b: seq<Log>, c: seq<Log>)
    ensures a + (b + c) == (a + b) + c
  {
  }

  lemma {:induction false} LayoutCons(ops: seq<OpLogs>)
    requires ops != []
    ensures Layout(ops) == OwnLogs(ops[0]) + Layout(ops[1..])
  {
  }

  lemma {:induction false} LayoutSplit(ops: seq<OpLogs>, i: nat)
    requires i < |ops|
    ensures Layout(ops) == Layout(ops[..i]) + (OwnLogs(ops[i]) + Layout(ops[i + 1..]))
    decreases i
  {
    LayoutCons(ops);
    if i == 0 {
      assert ops[..0] == [];
      assert [] + Layout(ops) == Layout(ops);
    } else {
      hide Layout, OwnLogs;
      LayoutSplit(ops[1..], i - 1);
      assert ops[1..][i..] == ops[i + 1..];
      assert ops[..i][1..] == ops[1..][..i - 1];
      LayoutCons(ops[..i]);
      Assoc(OwnLogs(ops[0]), Layout(ops[1..][..i - 1]), OwnLogs(ops[i]) + Layout(ops[i + 1..]));
    }
  }

  lemma {:induction false} LayoutEnds(ops: seq<OpLogs>)
    requires ops != []
    ensures |Layout(ops)| > 0 && Layout(ops)[|Layout(ops)| - 1] == ops[|ops| - 1].Event()
    decreases |ops|
  {
    LayoutCons(ops);
    if |ops| > 1 {
      LayoutEnds(ops[1..]);
    }
  }

  lemma {:induction false} SplitAt(ops: seq<OpLogs>, i: nat)
    requires i < |ops|
    ensures Layout(ops) == Layout(ops[..i]) + (ops[i].segment + [ops[i].Event()] + Layout(ops[i + 1..]))
    ensures i > 0 ==> |Layout(ops[..i])| > 0 && Layout(ops[..i])[|Layout(ops[..i])| - 1] == ops[i - 1].Event()
  {
    LayoutSplit(ops, i);
    if i > 0 {
      LayoutEnds(ops[..i]);
    }
  }

  /** Operations with other hashes leave neither an own event nor a marker. */
  lemma {:induction false} OthersQuiet(h: string, ops: seq<OpLogs>)
    requires forall i :: 0 <= i < |ops| ==> Quiet(ops[i].segment) && ToLower(ops[i].hash) != ToLower(h)
    ensures Unrelated(h, Layout(ops))
  {
    if ops != [] {
      OthersQuiet(h, ops[1..]);
    }
  }

  /** Around the only own event the cut ends there; it starts after the marker before it, if there is one. */
  lemma {:induction false} CutAfterMarkerAt(kinds: seq<Kind>, marker: nat, n: nat)
    requires marker < n < |kinds| && kinds[marker] == Marker && kinds[n] == Own
    requires forall k :: 0 <= k < |kinds| && k != n ==> kinds[k] != Own
    requires forall k :: 0 <= k < |kinds| && k != marker ==> kinds[k] != Marker
    ensures CutEnd(kinds) == n && CutStart(kinds) == marker
  {
    assert LastIndex(Own, kinds) == n && LastIndex(Marker, kinds) == marker;
  }

  /** Without a marker it starts after the last foreign event before it. */
  lemma {:induction false} CutAfterForeignAt(kinds: seq<Kind>, foreign: int, n: nat)
    requires -1 <= foreign < n < |kinds| && kinds[n] == Own
    requires foreign >= 0 ==> kinds[foreign] == Foreign
    requires forall k :: 0 <= k < |kinds| && k != n ==> kinds[k] != Own
    requires forall k :: 0 <= k < |kinds| ==> kinds[k] != Marker
    requires forall k :: foreign < k < n ==> kinds[k] != Foreign
    ensures CutEnd(kinds) == n && CutStart(kinds) == foreign
  {
    assert LastIndex(Own, kinds) == n && LastIndex(Marker, kinds) == -1 && FirstIndex(Own, kinds) == n;
    assert LastIndex(Foreign, kinds[..n]) == foreign;
  }

  /** Nothing in these logs concerns operation h: no marker and no own event. */
  ghost predicate Unrelated(h: string, logs: seq<Log>) {
    forall k :: 0 <= k < |logs| ==> KindOf(h, logs[k]) == Foreign || KindOf(h, logs[k]) == Plain
  }

  lemma {:induction false} IndexParts(head: seq<Log>, segment: seq<Log>, event: Log, rest: seq<Log>, logs: seq<Log>,
      k: nat)
    requires logs == head + (segment + [event] + rest) && k < |logs|
    ensures
      var m, n := |head|, |head| + |segment|;
      logs[k] == if k < m then head[k] else if k < n then segment[k - m] else if k == n then event else rest[k - n - 1]
  {
  }

  lemma {:induction false} CutPlain(h: string, head: seq<Log>, segment: seq<Log>, event: Log, rest: seq<Log>,
      logs: seq<Log>)
    requires logs == head + (segment + [event] + rest)
    requires KindOf(h, event) == Own && Quiet(segment) && Unrelated(h, head) && Unrelated(h, rest)
    requires head == [] || KindOf(h, head[|head| - 1]) == Foreign
    ensures Cut(h, logs) == segment
  {
    var kinds, m, n := Kinds(h, logs), |head|, |head| + |segment|;
    forall k: nat | k < |logs|
      ensures kinds[k] != Marker && (kinds[k] == Own <==> k == n) && (m <= k < n ==> kinds[k] == Plain)
    {
      IndexParts(head, segment, event, rest, logs, k);
    }
    if m > 0 {
      IndexParts(head, segment, event, rest, logs, m - 1);
    }
    CutAfterForeignAt(kinds, m - 1, n);
    assert logs[m..n] == segment;
  }

  lemma {:induction false} CutMarked(h: string, prefix: seq<Log>, head: seq<Log>, segment: seq<Log>, event: Log,
      rest: seq<Log>, run: seq<Log>)
    requires run == head + (segment + [event] + rest)
    requires KindOf(h, event) == Own && Quiet(segment) && Unrelated(h, head) && Unrelated(h, rest)
    requires |prefix| > 0 && prefix[|prefix| - 1].topic.BeforeExecution? && Quiet(prefix[..|prefix| - 1])
    ensures Cut(h, prefix + run) == head + segment
  {
    var p, logs, n := |prefix|, prefix + run, |head| + |segment|;
    var kinds := Kinds(h, logs);
    forall k: nat | k < |logs|
      ensures (kinds[k] == Marker <==> k == p - 1) && (kinds[k] == Own <==> k == p + n)
    {
      if k < p {
        assert logs[k] == prefix[k];
        assert k < p - 1 ==> prefix[..p - 1][k].topic.OtherTopic?;
      } else {
        assert logs[k] == run[k - p];
        IndexParts(head, segment, event, rest, run, k - p);
      }
    }
    CutAfterMarkerAt(kinds, p - 1, p + n);
    assert logs[p..p + n] == head + segment;
  }

  /** Without a marker the cut of an operation is exactly its own segment. */
  lemma {:induction false} CutExact(ops: seq<OpLogs>, i: nat)
    requires WellFormed(ops) && i < |ops|
    ensures Cut(ops[i].hash, Layout(ops)) == ops[i].segment
  {
    var head, rest := Layout(ops[..i]), Layout(ops[i + 1..]);
    SplitAt(ops, i);
    OthersQuiet(ops[i].hash, ops[..i]);
    OthersQuiet(ops[i].hash, ops[i + 1..]);
    assert i == 0 ==> head == [];
    CutPlain(ops[i].hash, head, ops[i].segment, ops[i].Event(), rest, Layout(ops));
  }

  /** After the marker EntryPoint emits before execution, the cut also holds everything the earlier operations
      logged; it is the operation's own segment exactly for the first operation. */
  lemma {:induction false} CutAfterMarker(validation: seq<Log>, marker: Log, ops: seq<OpLogs>, i: nat)
    requires WellFormed(ops) && i < |ops| && Quiet(validation) && marker.topic.BeforeExecution?
    ensures Cut(ops[i].hash, validation + [marker] + Layout(ops)) == Layout(ops[..i]) + ops[i].segment
    ensures Cut(ops[i].hash, validation + [marker] + Layout(ops)) == ops[i].segment <==> i == 0
  {
    var head, rest := Layout(ops[..i]), Layout(ops[i + 1..]);
    SplitAt(ops, i);
    OthersQuiet(ops[i].hash, ops[..i]);
    OthersQuiet(ops[i].hash, ops[i + 1..]);
    var prefix := validation + [marker];
    assert prefix[..|prefix| - 1] == validation;
    CutMarked(ops[i].hash, prefix, head, ops[i].segment, ops[i].Event(), rest, Layout(ops));
    assert i == 0 ==> head == [];
    assert |head + ops[i].segment| == |head| + |ops[i].segment|;
  }
}
