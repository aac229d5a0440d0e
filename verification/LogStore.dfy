/** The bounded log: the last events ingested, and queries that read it backwards. */
module LogStore {
  import opened Wrappers
  import opened Sequences
  import opened Text

  const DEFAULT_LIMIT := 200
  const MAX_LIMIT := 2000

  /** `meta` is the event's metadata as JSON text. */
  datatype LogEvent = LogEvent(
    ts: int, service: string, level: string, msg: string, meta: Option<string>,
    requestId: Option<string>, quoteId: Option<string>, userOpHash: Option<string>,
    sender: Option<string>, txHash: Option<string>)

  datatype QueryParams = QueryParams(
    service: Option<string>, level: Option<string>, q: Option<string>,
    requestId: Option<string>, quoteId: Option<string>, userOpHash: Option<string>,
    sender: Option<string>, txHash: Option<string>,
    since: Option<int>, until: Option<int>, limit: Option<int>)

  predicate Includes(s: string, part: string) {
    exists i :: 0 <= i <= |s| && part <= s[i..]
  }

  /** An absent or empty filter lets everything through; otherwise the texts agree up to letter case. */
  predicate Agrees(wanted: Option<string>, actual: string) {
    wanted.GetOr("") == "" || ToLower(actual) == ToLower(wanted.value)
  }

  predicate MentionsText(q: Option<string>, e: LogEvent) {
    || q.GetOr("") == ""
    || Includes(ToLower(e.msg), ToLower(q.value))
    || Includes(ToLower(e.meta.GetOr("{}")), ToLower(q.value))
  }

  predicate Matches(params: QueryParams, e: LogEvent) {
    && Agrees(params.service, e.service)
    && Agrees(params.level, e.level)
    && (params.since.Some? ==> e.ts >= params.since.value)
    && (params.until.Some? ==> e.ts <= params.until.value)
    && Agrees(params.requestId, e.requestId.GetOr(""))
    && Agrees(params.quoteId, e.quoteId.GetOr(""))
    && Agrees(params.userOpHash, e.userOpHash.GetOr(""))
    && Agrees(params.sender, e.sender.GetOr(""))
    && Agrees(params.txHash, e.txHash.GetOr(""))
    && MentionsText(params.q, e)
  }

  function Matching(params: QueryParams): LogEvent -> bool {
    (e: LogEvent) => Matches(params, e)
  }

  function Limit(params: QueryParams): (n: nat)
    ensures 1 <= n <= MAX_LIMIT
  {
    Max(1, Min(params.limit.GetOr(DEFAULT_LIMIT), MAX_LIMIT))
  }

  function Reversed<T>(s: seq<T>): (r: seq<T>)
    ensures |r| == |s|
  {
    if s == [] then [] else Reversed(s[1..]) + [s[0]]
  }

  lemma {:induction false} ReversedSnoc<T>(s: seq<T>, x: T)
    ensures Reversed(s + [x]) == [x] + Reversed(s)
    decreases |s|
  {
    if s != [] {
      ReversedSnoc(s[1..], x);
      assert (s + [x])[1..] == s[1..] + [x];
    }
  }

  /** Keeping only the last max events while pushing keeps the last max of everything pushed. */
  lemma {:induction false} LastNSnoc<T>(s: seq<T>, x: T, max: nat)
    ensures LastN(LastN(s, max) + [x], max) == LastN(s + [x], max)
  {
  }

  /** Matches found in a tail that already holds enough of them are the last ones of the whole. */
  lemma {:induction false} EnoughFound<T>(p: T -> bool, s: seq<T>, i: nat, limit: nat)
    requires i <= |s|
    ensures i == 0 && |Filter(p, s[i..])| <= limit ==> LastN(Filter(p, s), limit) == Filter(p, s[i..])
    ensures |Filter(p, s[i..])| == limit ==> LastN(Filter(p, s), limit) == Filter(p, s[i..])
  {
    assert s == s[..i] + s[i..];
    FilterAppend(p, s[..i], s[i..]);
  }

  lemma {:induction false} FoundStep<T>(p: T -> bool, s: seq<T>, i: nat, out: seq<T>)
    requires i < |s|
    requires Reversed(out) == Filter(p, s[i + 1..])
    ensures Filter(p, s[i..]) == if p(s[i]) then Reversed(out + [s[i]]) else Reversed(out)
  {
    assert s[i..] == [s[i]] + s[i + 1..];
    FilterAppend(p, [s[i]], s[i + 1..]);
    FilterSnoc(p, [], s[i]);
    assert [] + [s[i]] == [s[i]];
    ReversedSnoc(out, s[i]);
  }

  /** The scan from the newest event back, stopping at the limit. */
  method Scan(logs: seq<LogEvent>, params: QueryParams) returns (r: seq<LogEvent>)
    ensures r == LastN(Filter(Matching(params), logs), Limit(params))
  {
    var limit := Limit(params);
    var out: seq<LogEvent> := [];
    var i := |logs|;
    while i > 0
      invariant 0 <= i <= |logs| && |out| < limit
      invariant Reversed(out) == Filter(Matching(params), logs[i..])
    {
      i := i - 1;
      FoundStep(Matching(params), logs, i, out);
      if Matches(params, logs[i]) {
        out := out + [logs[i]];
        if |out| >= limit {
          break;
        }
      }
    }
    EnoughFound(Matching(params), logs, i, limit);
    r := Reversed(out);
  }

  /** Drops the oldest events while there are too many. */
  method Shift(logs: seq<LogEvent>, max: nat) returns (r: seq<LogEvent>)
    ensures r == LastN(logs, max)
  {
    r := logs;
    while |r| > max
      invariant |r| <= |logs| && r == logs[|logs| - |r|..]
      invariant |r| >= Min(|logs|, max)
    {
      r := r[1..];
    }
  }

  class LogStore {
    const max: nat
    var logs: seq<LogEvent>
    ghost var ingested: seq<LogEvent>

    ghost predicate Valid()
      reads this
    {
      logs == LastN(ingested, max)
    }

    constructor (max: nat)
      ensures Valid() && this.max == max && ingested == []
    {
      this.max := max;
      logs := [];
      ingested := [];
    }

    method Ingest(events: seq<LogEvent>)
      requires Valid()
      modifies this
      ensures Valid() && ingested == old(ingested) + events
    {
      for i := 0 to |events|
        invariant Valid() && ingested == old(ingested) + events[..i]
      {
        Push(events[i]);
        assert events[..i + 1] == events[..i] + [events[i]];
      }
      assert events[..|events|] == events;
    }

    method Push(event: LogEvent)
      requires Valid()
      modifies this
      ensures Valid() && ingested == old(ingested) + [event]
    {
      LastNSnoc(ingested, event, max);
      ingested := ingested + [event];
      logs := logs + [event];
      logs := Shift(logs, max);
    }

    /** The last matching events among the last `max` ever ingested, in the order they came. */
    method Query(params: QueryParams) returns (r: seq<LogEvent>)
      requires Valid()
      ensures r == LastN(Filter(Matching(params), LastN(ingested, max)), Limit(params))
    {
      r := Scan(logs, params);
    }

    method Count() returns (n: nat)
      requires Valid()
      ensures n == Min(|ingested|, max)
    {
      n := |logs|;
    }
  }
}
