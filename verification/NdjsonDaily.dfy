/** The daily NDJSON writer: records appended to one file a day, and the most recent ones loaded back. */
module NdjsonDaily {
  import opened Wrappers
  import opened Sequences
  import opened JsMaps
  import opened DailyFiles
  import Sorting

  const DEFAULT_TAIL_BYTES := 512 * 1024

  function OnDay<T>(c: Codec<T>, d: int): T -> bool {
    (r: T) => Day(c, r) == d
  }

  function ByDay<T>(c: Codec<T>): (T, T) -> bool {
    (a: T, b: T) => Day(c, a) <= Day(c, b)
  }

  /** One day's records in the order they were appended. */
  function DayRecords<T>(c: Codec<T>, written: seq<T>, d: int): seq<T> {
    Filter(OnDay(c, d), written)
  }

  function DayFiles<T>(c: Codec<T>, written: seq<T>, days: seq<int>): seq<seq<T>> {
    Map((d: int) => DayRecords(c, written, d), days)
  }

  ghost predicate Increasing(days: seq<int>) {
    forall i, j :: 0 <= i < j < |days| ==> days[i] < days[j]
  }

  ghost predicate AllDays<T>(c: Codec<T>, records: seq<T>, days: seq<int>) {
    forall i :: 0 <= i < |records| ==> Day(c, records[i]) in days
  }

  /** Records sorted by day are the earlier days' followed by the last day's. */
  lemma {:induction false} SplitLastDay<T>(c: Codec<T>, s: seq<T>, d: int) returns (k: nat)
    requires forall i, j :: 0 <= i < j < |s| ==> Day(c, s[i]) <= Day(c, s[j])
    requires forall i :: 0 <= i < |s| ==> Day(c, s[i]) <= d
    ensures k <= |s|
    ensures forall i :: 0 <= i < |s| ==> (Day(c, s[i]) == d <==> k <= i)
    decreases |s|
  {
    if s == [] || Day(c, s[|s| - 1]) < d {
      k := |s|;
    } else {
      k := SplitLastDay(c, s[..|s| - 1], d);
    }
  }

  lemma {:induction false} DayOfSplit<T>(c: Codec<T>, s: seq<T>, k: nat, d: int)
    requires k <= |s|
    requires forall i :: 0 <= i < |s| ==> (Day(c, s[i]) == d <==> k <= i)
    ensures DayRecords(c, s, d) == s[k..]
  {
    assert s == s[..k] + s[k..];
    FilterAppend(OnDay(c, d), s[..k], s[k..]);
    FilterAll(OnDay(c, d), s[..k], false);
    FilterAll(OnDay(c, d), s[k..], true);
  }

  lemma {:induction false} OtherDayOfSplit<T>(c: Codec<T>, s: seq<T>, k: nat, e: int)
    requires k <= |s|
    requires forall i :: k <= i < |s| ==> Day(c, s[i]) != e
    ensures DayRecords(c, s, e) == DayRecords(c, s[..k], e)
  {
    assert s == s[..k] + s[k..];
    FilterAppend(OnDay(c, e), s[..k], s[k..]);
    FilterAll(OnDay(c, e), s[k..], false);
  }

  lemma {:induction false} EarlierDays<T>(c: Codec<T>, s: seq<T>, k: nat, d: int, days: seq<int>)
    requires k <= |s|
    requires forall i :: 0 <= i < |s| ==> (Day(c, s[i]) == d <==> k <= i)
    requires forall i :: 0 <= i < |days| ==> days[i] != d
    ensures DayFiles(c, s, days) == DayFiles(c, s[..k], days)
  {
    forall i | 0 <= i < |days|
      ensures DayFiles(c, s, days)[i] == DayFiles(c, s[..k], days)[i]
    {
      OtherDayOfSplit(c, s, k, days[i]);
    }
  }

  lemma {:induction false} DayFilesSnoc<T>(c: Codec<T>, s: seq<T>, days: seq<int>, d: int)
    ensures Flatten(DayFiles(c, s, days + [d])) == Flatten(DayFiles(c, s, days)) + DayRecords(c, s, d)
  {
    assert DayFiles(c, s, days + [d]) == DayFiles(c, s, days) + [DayRecords(c, s, d)];
    FlattenSnoc(DayFiles(c, s, days), DayRecords(c, s, d));
  }

  lemma {:induction false} CutLastDay<T>(c: Codec<T>, s: seq<T>, earlier: seq<int>, d: int) returns (k: nat)
    requires Increasing(earlier + [d]) && AllDays(c, s, earlier + [d])
    requires forall i, j :: 0 <= i < j < |s| ==> Day(c, s[i]) <= Day(c, s[j])
    ensures k <= |s|
    ensures forall i :: 0 <= i < |s| ==> (Day(c, s[i]) == d <==> k <= i)
    ensures AllDays(c, s[..k], earlier)
  {
    var days := earlier + [d];
    forall i | 0 <= i < |s|
      ensures Day(c, s[i]) <= d
    {
      var j :| 0 <= j < |days| && days[j] == Day(c, s[i]);
      assert days[|earlier|] == d;
    }
    k := SplitLastDay(c, s, d);
    forall i | 0 <= i < k
      ensures Day(c, s[..k][i]) in earlier
    {
      assert Day(c, s[i]) in days;
    }
  }

  lemma {:induction false} JoinLastDay<T>(c: Codec<T>, s: seq<T>, k: nat, earlier: seq<int>, d: int)
    requires Increasing(earlier + [d]) && k <= |s|
    requires forall i :: 0 <= i < |s| ==> (Day(c, s[i]) == d <==> k <= i)
    requires Flatten(DayFiles(c, s[..k], earlier)) == s[..k]
    ensures Flatten(DayFiles(c, s, earlier + [d])) == s
  {
    forall i | 0 <= i < |earlier|
      ensures earlier[i] != d
    {
      assert (earlier + [d])[i] < (earlier + [d])[|earlier|];
    }
    EarlierDays(c, s, k, d, earlier);
    DayFilesSnoc(c, s, earlier, d);
    DayOfSplit(c, s, k, d);
    assert s == s[..k] + s[k..];
  }

  lemma {:induction false} NeedsADay<T>(c: Codec<T>, s: seq<T>, days: seq<int>)
    requires AllDays(c, s, days) && s != []
    ensures days != []
  {
    assert Day(c, s[0]) in days;
  }

  lemma {:induction false} SortedByDay<T>(c: Codec<T>, s: seq<T>, days: seq<int>)
    requires Increasing(days) && AllDays(c, s, days)
    requires forall i, j :: 0 <= i < j < |s| ==> Day(c, s[i]) <= Day(c, s[j])
    ensures Flatten(DayFiles(c, s, days)) == s
    decreases |days|
  {
    if s != [] {
      NeedsADay(c, s, days);
    }
    if days != [] {
      var n := |days| - 1;
      assert days == days[..n] + [days[n]];
      var k := CutLastDay(c, s, days[..n], days[n]);
      SortedByDay(c, s[..k], days[..n]);
      JoinLastDay(c, s, k, days[..n], days[n]);
    }
  }

  /** The files read one after the other, oldest day first, are the appended records stably sorted by day. */
  lemma {:induction false} FilesAreSorted<T(!new)>(c: Codec<T>, written: seq<T>, days: seq<int>)
    requires Increasing(days) && AllDays(c, written, days)
    ensures Flatten(DayFiles(c, written, days)) == Sorting.Sort(ByDay(c), written)
  {
    var s := Sorting.Sort(ByDay(c), written);
    Sorting.SortSorted(ByDay(c), written);
    forall i | 0 <= i < |s|
      ensures Day(c, s[i]) in days
    {
      Sorting.SortMember(ByDay(c), written, s[i]);
    }
    forall i | 0 <= i < |days|
      ensures DayFiles(c, s, days)[i] == DayFiles(c, written, days)[i]
    {
      Sorting.SortStable(ByDay(c), written, OnDay(c, days[i]));
    }
    assert DayFiles(c, s, days) == DayFiles(c, written, days);
    forall i, j | 0 <= i < j < |s|
      ensures Day(c, s[i]) <= Day(c, s[j])
    {
      assert ByDay(c)(s[i], s[j]);
    }
    SortedByDay(c, s, days);
  }

  /** With every file inside the window, nothing of any file is invisible. */
  lemma {:induction false} AllVisible<T>(c: Codec<T>, files: seq<seq<T>>, maxBytes: int)
    requires forall i :: 0 <= i < |files| ==> |RecordsText(c, files[i])| <= maxBytes
    ensures VisibleFiles(c, files, maxBytes) == files
  {
  }

  // ---- The writer

  /** The directory holds, for each day written to, exactly that day's records. */
  ghost predicate Holds<T>(c: Codec<T>, files: map<int, string>, written: seq<T>) {
    && (forall i :: 0 <= i < |written| ==> Day(c, written[i]) in files)
    && (forall d :: d in files ==> files[d] == RecordsText(c, DayRecords(c, written, d)))
  }

  ghost predicate Grouped<T>(c: Codec<T>, byFile: JsMap<int, seq<string>>, records: seq<T>) {
    && byFile.Valid()
    && (forall i :: 0 <= i < |records| ==> Day(c, records[i]) in byFile.entries)
    && (forall d :: d in byFile.entries ==> byFile.entries[d] == Map(c.encode, DayRecords(c, records, d)))
    && (forall d :: d in byFile.entries ==> byFile.entries[d] != [])
  }

  lemma {:induction false} GroupStep<T>(c: Codec<T>, byFile: JsMap<int, seq<string>>, records: seq<T>, r: T)
    requires Grouped(c, byFile, records)
    ensures Grouped(c, byFile.Set(Day(c, r), byFile.Get(Day(c, r)).GetOr([]) + [c.encode(r)]), records + [r])
  {
    var day := Day(c, r);
    var next := byFile.Set(day, byFile.Get(day).GetOr([]) + [c.encode(r)]);
    forall d | d in next.entries
      ensures next.entries[d] == Map(c.encode, DayRecords(c, records + [r], d))
    {
      LinesSnoc(c, records, r, d);
      NotGrouped(c, byFile, records, d);
    }
  }

  lemma {:induction false} LinesSnoc<T>(c: Codec<T>, records: seq<T>, r: T, d: int)
    ensures Map(c.encode, DayRecords(c, records + [r], d))
      == Map(c.encode, DayRecords(c, records, d)) + if Day(c, r) == d then [c.encode(r)] else []
  {
    FilterSnoc(OnDay(c, d), records, r);
    if Day(c, r) == d {
      MapAppend(c.encode, DayRecords(c, records, d), [r]);
      assert Map(c.encode, [r]) == [c.encode(r)];
    } else {
      assert DayRecords(c, records + [r], d) == DayRecords(c, records, d);
    }
  }

  lemma {:induction false} NotGrouped<T>(c: Codec<T>, byFile: JsMap<int, seq<string>>, records: seq<T>, d: int)
    requires Grouped(c, byFile, records)
    ensures byFile.Get(d).GetOr([]) == Map(c.encode, DayRecords(c, records, d))
  {
    if d !in byFile.entries {
      FilterAll(OnDay(c, d), records, false);
    }
  }

  lemma {:induction false} NothingGrouped<T>(c: Codec<T>)
    ensures Grouped(c, Empty(), [])
  {
  }

  /** The lines to append, grouped by day in the order the days first occur. */
  method Group<T>(c: Codec<T>, records: seq<T>) returns (byFile: JsMap<int, seq<string>>)
    ensures Grouped(c, byFile, records)
  {
    hide *;
    NothingGrouped(c);
    byFile := Empty();
    for i := 0 to |records|
      invariant Grouped(c, byFile, records[..i])
    {
      var r := records[i];
      var day := Day(c, r);
      GroupStep(c, byFile, records[..i], r);
      assert records[..i + 1] == records[..i] + [r];
      var lines := byFile.Get(day).GetOr([]);
      lines := lines + [c.encode(r)];
      byFile := byFile.Set(day, lines);
    }
    assert records[..|records|] == records;
  }

  /** Every file that received a group ends with it, the others are as they were. */
  ghost predicate Extended(r: map<int, string>, files: map<int, string>, groups: map<int, seq<string>>, done: set<int>)
    requires done <= groups.Keys
  {
    && r.Keys == files.Keys + done
    && forall d :: d in r ==>
      r[d] == (if d in files then files[d] else "") + (if d in done then FileText(groups[d]) else "")
  }

  lemma {:induction false} ExtendedStep(r: map<int, string>, files: map<int, string>, groups: map<int, seq<string>>,
      done: set<int>, day: int)
    requires done <= groups.Keys && Extended(r, files, groups, done)
    requires day in groups && day !in done
    ensures Extended(r[day := (if day in r then r[day] else "") + FileText(groups[day])], files, groups, done + {day})
  {
  }

  /** Appends every group to its file, creating the missing ones. */
  method AppendGroups(files: map<int, string>, byFile: JsMap<int, seq<string>>) returns (r: map<int, string>)
    requires byFile.Valid() && forall d :: d in byFile.entries ==> byFile.entries[d] != []
    ensures Extended(r, files, byFile.entries, byFile.entries.Keys)
  {
    r := files;
    ghost var done := {};
    for i := 0 to |byFile.keys|
      invariant done <= byFile.entries.Keys && done == Elements(byFile.keys[..i])
      invariant Extended(r, files, byFile.entries, done)
    {
      var day := byFile.keys[i];
      var lines := byFile.entries[day];
      JoinText(lines);
      assert byFile.keys[..i + 1] == byFile.keys[..i] + [day];
      assert day !in byFile.keys[..i];
      ExtendedStep(r, files, byFile.entries, done, day);
      done := done + {day};
      r := r[day := (if day in r then r[day] else "") + (Join(lines) + "\n")];
    }
    assert byFile.keys[..|byFile.keys|] == byFile.keys;
    assert done == byFile.entries.Keys;
  }

  lemma {:induction false} AppendHolds<T>(c: Codec<T>, files: map<int, string>, written: seq<T>,
      byFile: JsMap<int, seq<string>>, records: seq<T>, r: map<int, string>)
    requires Holds(c, files, written) && Grouped(c, byFile, records)
    requires Extended(r, files, byFile.entries, byFile.entries.Keys)
    ensures Holds(c, r, written + records)
  {
    forall d | d in r
      ensures r[d] == RecordsText(c, DayRecords(c, written + records, d))
    {
      FilterAppend(OnDay(c, d), written, records);
      MapAppend(c.encode, DayRecords(c, written, d), DayRecords(c, records, d));
      TextAppend(Map(c.encode, DayRecords(c, written, d)), Map(c.encode, DayRecords(c, records, d)));
      NotGrouped(c, byFile, records, d);
      if d !in files {
        FilterAll(OnDay(c, d), written, false);
      }
      if d !in byFile.entries {
        assert FileText(Map(c.encode, DayRecords(c, records, d))) == "";
      }
    }
    forall i | 0 <= i < |written + records|
      ensures Day(c, (written + records)[i]) in r
    {
      if i >= |written| {
        assert (written + records)[i] == records[i - |written|];
      }
    }
  }

  /** A directory listing comes in no particular order. */
  method Listing<N(==)>(names: set<N>) returns (listed: seq<N>)
    ensures Distinct(listed) && forall n :: n in listed <==> n in names
  {
    listed := [];
    var rest := names;
    while rest != {}
      invariant rest <= names
      invariant forall n :: n in listed <==> n in names && n !in rest
      invariant Distinct(listed)
      decreases |rest|
    {
      var n :| n in rest;
      rest := rest - {n};
      listed := listed + [n];
    }
  }

  function Contents(files: map<int, string>): int -> string {
    (d: int) => if d in files then files[d] else ""
  }

  /** The directory listing sorted: file names sort as their days do. */
  method ListFiles(files: map<int, string>) returns (days: seq<int>)
    ensures Increasing(days) && forall d :: d in days <==> d in files
  {
    days := Listing(files.Keys);
    var byName := (a: int, b: int) => a <= b;
    forall d
      ensures d in Sorting.Sort(byName, days) <==> d in days
    {
      Sorting.SortMember(byName, days, d);
    }
    Sorting.SortSorted(byName, days);
    Sorting.SortDistinct(byName, days);
    days := Sorting.Sort(byName, days);
    assert forall i, j :: 0 <= i < j < |days| ==> byName(days[i], days[j]);
  }

  /** The loop from the newest file back, stopping when enough records are found. */
  method LoadTail<T>(read: (string, nat) -> seq<T>, files: map<int, string>, days: seq<int>, maxRecords: int)
    returns (out: seq<T>)
    requires forall i :: 0 <= i < |days| ==> days[i] in files
    ensures out == Load(read, Map(Contents(files), days), maxRecords)
  {
    ghost var contents := Map(Contents(files), days);
    var batches: seq<seq<T>> := [];
    var remaining := maxRecords;
    var i := |days|;
    assert contents[..i] == contents;
    while i > 0 && remaining > 0
      invariant 0 <= i <= |days|
      invariant Load(read, contents, maxRecords) == Load(read, contents[..i], remaining) + Flatten(batches)
    {
      i := i - 1;
      var events := read(files[days[i]], remaining);
      BatchStep(read, contents, i, remaining, events, batches);
      remaining := remaining - |events|;
      batches := [events] + batches;
    }
    out := Flatten(batches);
  }

  lemma {:induction false} LoadSnoc<T>(read: (string, nat) -> seq<T>, rest: seq<string>, last: string, n: nat)
    requires n > 0
    ensures Load(read, rest + [last], n) == Load(read, rest, n - |read(last, n)|) + read(last, n)
  {
    assert (rest + [last])[..|rest|] == rest;
  }

  lemma {:induction false} BatchStep<T>(read: (string, nat) -> seq<T>, contents: seq<string>, i: nat, n: nat,
      events: seq<T>, batches: seq<seq<T>>)
    requires i < |contents| && n > 0 && events == read(contents[i], n)
    ensures Load(read, contents[..i + 1], n) + Flatten(batches)
      == Load(read, contents[..i], n - |events|) + Flatten([events] + batches)
  {
    LoadSnoc(read, contents[..i], contents[i], n);
    assert contents[..i + 1] == contents[..i] + [contents[i]];
    FlattenCons(events, batches);
  }

  lemma {:induction false} FlattenCons<T>(x: seq<T>, s: seq<seq<T>>)
    ensures Flatten([x] + s) == x + Flatten(s)
    decreases |s|
  {
    if s == [] {
      assert [x] + s == [] + [x];
      FlattenSnoc([], x);
    } else {
      var n := |s| - 1;
      FlattenCons(x, s[..n]);
      assert [x] + s == ([x] + s[..n]) + [s[n]];
      FlattenSnoc([x] + s[..n], s[n]);
    }
  }

  class NdjsonDailyWriter<T(!new)> {
    const codec: Codec<T>
    const maxTailBytes: int
    var files: map<int, string>
    ghost var written: seq<T>

    ghost predicate Valid()
      reads this
    {
      Faithful(codec) && Holds(codec, files, written)
    }

    /** Every file fits the tail window. */
    predicate AllFit()
      reads this
    {
      forall d :: d in files ==> |files[d]| <= maxTailBytes
    }

    constructor (codec: Codec<T>, maxTailBytes: Option<int>)
      requires Faithful(codec)
      ensures Valid() && written == [] && this.codec == codec
      ensures this.maxTailBytes == maxTailBytes.GetOr(DEFAULT_TAIL_BYTES)
    {
      this.codec := codec;
      this.maxTailBytes := maxTailBytes.GetOr(DEFAULT_TAIL_BYTES);
      files := map[];
      written := [];
    }

    method Append(records: seq<T>)
      requires Valid()
      modifies this
      ensures Valid() && written == old(written) + records
    {
      if |records| == 0 {
        return;
      }
      var byFile := Group(codec, records);
      var r := AppendGroups(files, byFile);
      AppendHolds(codec, files, written, byFile, records, r);
      files := r;
      written := written + records;
    }

    /**
     * The last records of what is visible, day by day; every file contributes a suffix of its records.
     * When every file fits the window these are the last records of the day-ordered, per-day append-ordered history.
     */
    method LoadRecent(maxRecords: int) returns (out: seq<T>, ghost days: seq<int>)
      requires Valid()
      ensures Increasing(days) && forall d :: d in days <==> d in files
      ensures out == LastN(Flatten(VisibleFiles(codec, DayFiles(codec, written, days), maxTailBytes)),
          Max(0, maxRecords))
      ensures AllFit() ==> out == LastN(Sorting.Sort(ByDay(codec), written), Max(0, maxRecords))
    {
      var listed := ListFiles(files);
      days := listed;
      assert forall i :: 0 <= i < |listed| ==> listed[i] in listed;
      if maxRecords <= 0 {
        out := [];
      } else {
        out := LoadTail(TailReader(codec, maxTailBytes), files, listed, maxRecords);
      }
      LoadedIsLast(codec, files, written, days, maxTailBytes, maxRecords);
    }
  }

  lemma {:induction false} LoadedIsLast<T(!new)>(c: Codec<T>, files: map<int, string>, written: seq<T>, days: seq<int>,
      maxBytes: int, maxRecords: int)
    requires Faithful(c) && Holds(c, files, written)
    requires Increasing(days) && forall d :: d in days <==> d in files
    ensures var out := Load(TailReader(c, maxBytes), Map(Contents(files), days), maxRecords);
      && out == LastN(Flatten(VisibleFiles(c, DayFiles(c, written, days), maxBytes)), Max(0, maxRecords))
      && ((forall d :: d in files ==> |files[d]| <= maxBytes)
        ==> out == LastN(Sorting.Sort(ByDay(c), written), Max(0, maxRecords)))
  {
    var contents := Map(Contents(files), days);
    var rs := DayFiles(c, written, days);
    LoadIsLast(c, rs, contents, maxBytes, Max(0, maxRecords));
    FilesAreSorted(c, written, days);
    if forall d :: d in files ==> |files[d]| <= maxBytes {
      AllVisible(c, rs, maxBytes);
    }
  }
}
