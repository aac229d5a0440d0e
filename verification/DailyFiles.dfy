/**
 * One newline-delimited JSON file a day: how records become file text, and what a bounded read of a
 * file's tail gives back. Characters stand for the bytes of a file.
 */
module DailyFiles {
  import opened Wrappers
  import opened Sequences

  const SECONDS_PER_DAY := 86400

  /** `JSON.stringify`, `JSON.parse` followed by the caller's `coerce`, and the record's time stamp in seconds. */
  datatype Codec<!T> = Codec(encode: T -> string, parse: string -> Option<T>, ts: T -> int)

  predicate Blank(c: char) {
    c == ' ' || '\t' <= c <= '\r'
  }

  /** A line that splitting and trimming leave as it is. */
  ghost predicate Plain(line: string) {
    line != "" && '\n' !in line && '\r' !in line && !Blank(line[0]) && !Blank(line[|line| - 1])
  }

  ghost predicate Faithful<T(!new)>(c: Codec<T>) {
    forall r :: Plain(c.encode(r)) && c.parse(c.encode(r)) == Some(r)
  }

  function Day<T>(c: Codec<T>, r: T): int {
    c.ts(r) / SECONDS_PER_DAY
  }

  // ---- Text and lines

  /** Splitting at every line feed, with the carriage return before it if there is one. */
  function Split(text: string): (r: seq<string>)
    ensures |r| > 0
  {
    if text == "" then [""]
    else if text[0] == '\n' then [""] + Split(text[1..])
    else if |text| > 1 && text[0] == '\r' && text[1] == '\n' then [""] + Split(text[2..])
    else
      var rest := Split(text[1..]);
      [[text[0]] + rest[0]] + rest[1..]
  }

  function TrimStart(s: string): string {
    if s != "" && Blank(s[0]) then TrimStart(s[1..]) else s
  }

  function TrimEnd(s: string): string {
    if s != "" && Blank(s[|s| - 1]) then TrimEnd(s[..|s| - 1]) else s
  }

  function Trim(s: string): string {
    TrimEnd(TrimStart(s))
  }

  function NonEmpty(): string -> bool {
    (s: string) => s != ""
  }

  function Trimmed(): string -> string {
    (s: string) => Trim(s)
  }

  /** The trimmed lines of some split text that are not blank. */
  function Lines(pieces: seq<string>): seq<string> {
    Filter(NonEmpty(), Map(Trimmed(), pieces))
  }

  function Join(lines: seq<string>): string {
    if lines == [] then "" else if |lines| == 1 then lines[0] else lines[0] + "\n" + Join(lines[1..])
  }

  /** Every line with its line feed. */
  function FileText(lines: seq<string>): string {
    if lines == [] then "" else lines[0] + "\n" + FileText(lines[1..])
  }

  lemma {:induction false} JoinText(lines: seq<string>)
    requires lines != []
    ensures Join(lines) + "\n" == FileText(lines)
    decreases |lines|
  {
    if |lines| > 1 {
      JoinText(lines[1..]);
      assert Join(lines) + "\n" == lines[0] + "\n" + (Join(lines[1..]) + "\n");
    } else {
      assert FileText(lines[1..]) == "";
    }
  }

  lemma {:induction false} TextAppend(a: seq<string>, b: seq<string>)
    ensures FileText(a + b) == FileText(a) + FileText(b)
    decreases |a|
  {
    if a == [] {
      assert a + b == b;
    } else {
      TextAppend(a[1..], b);
      assert (a + b)[1..] == a[1..] + b;
      assert a[0] + "\n" + (FileText(a[1..]) + FileText(b)) == (a[0] + "\n" + FileText(a[1..])) + FileText(b);
    }
  }

  lemma {:induction false} SplitAfterLine(line: string, rest: string)
    requires '\n' !in line && '\r' !in line
    ensures Split(line + "\n" + rest) == [line] + Split(rest)
    decreases |line|
  {
    var text := line + "\n" + rest;
    if line == "" {
      assert text[1..] == rest;
    } else {
      assert text[0] == line[0] && line[0] in line;
      SplitAfterLine(line[1..], rest);
      assert text[1..] == line[1..] + "\n" + rest;
      assert Split(text[1..]) == [line[1..]] + Split(rest);
      assert [line[0]] + line[1..] == line;
    }
  }

  // ---- Reading a tail

  /** The first byte of the last maxBytes bytes. */
  function StartOffset(size: nat, maxBytes: int): nat {
    Max(0, size - maxBytes)
  }

  function Window(content: string, maxBytes: int): string {
    var start := StartOffset(|content|, maxBytes);
    if start >= |content| then "" else content[start..]
  }

  /** A window that does not start at the beginning loses its first piece, which may be part of a line. */
  function WindowPieces(content: string, maxBytes: int): seq<string> {
    var pieces := Split(Window(content, maxBytes));
    if StartOffset(|content|, maxBytes) > 0 then pieces[1..] else pieces
  }

  function Parse<T>(c: Codec<T>, lines: seq<string>): seq<T> {
    if lines == [] then []
    else
      var rest := Parse(c, lines[..|lines| - 1]);
      match c.parse(lines[|lines| - 1])
      case Some(r) => rest + [r]
      case None => rest
  }

  /** The records of the last maxRecords whole lines of the tail, unparsable ones skipped. */
  function TailRecords<T>(c: Codec<T>, content: string, maxBytes: int, maxRecords: nat): seq<T> {
    Parse(c, LastN(Lines(WindowPieces(content, maxBytes)), maxRecords))
  }

  function TailReader<T>(c: Codec<T>, maxBytes: int): (string, nat) -> seq<T> {
    (content: string, maxRecords: nat) => TailRecords(c, content, maxBytes, maxRecords)
  }

  /** Newest file first, each asked for what is still missing. */
  function Load<T>(read: (string, nat) -> seq<T>, contents: seq<string>, maxRecords: int): seq<T>
    decreases |contents|
  {
    if contents == [] || maxRecords <= 0 then []
    else
      var tail := read(contents[|contents| - 1], maxRecords);
      Load(read, contents[..|contents| - 1], maxRecords - |tail|) + tail
  }

  /** What a cut at any byte leaves after its first piece is a suffix of the whole text's pieces. */
  lemma {:induction false} SplitSuffix(text: string, start: nat)
    requires start <= |text|
    ensures SuffixOf(Split(text[start..])[1..], Split(text)[1..])
    decreases |text|
  {
    if start == 0 {
      assert text[start..] == text;
    } else {
      SplitSuffix(text[1..], start - 1);
      assert text[1..][start - 1..] == text[start..];
      if text[0] == '\n' {
        assert Split(text)[1..] == Split(text[1..]);
      } else if |text| > 1 && text[0] == '\r' && text[1] == '\n' {
        assert text[1..][1..] == text[2..];
        assert Split(text)[1..] == Split(text[2..]) == Split(text[1..])[1..];
      } else {
        assert Split(text)[1..] == Split(text[1..])[1..];
      }
    }
  }

  lemma {:induction false} LinesSuffix(a: seq<string>, b: seq<string>)
    requires SuffixOf(a, b)
    ensures SuffixOf(Lines(a), Lines(b))
  {
    var head := b[..|b| - |a|];
    assert b == head + a;
    MapAppend(Trimmed(), head, a);
    FilterAppend(NonEmpty(), Map(Trimmed(), head), Map(Trimmed(), a));
    assert Lines(b) == Lines(head) + Lines(a);
  }

  lemma {:induction false} WindowSuffix(content: string, maxBytes: int)
    ensures SuffixOf(WindowPieces(content, maxBytes), Split(content))
  {
    var start := StartOffset(|content|, maxBytes);
    if start > 0 {
      var at := Min(start, |content|);
      assert Window(content, maxBytes) == content[at..];
      SplitSuffix(content, at);
    } else {
      assert content[start..] == content;
    }
  }

  lemma {:induction false} LastNSuffix<T>(a: seq<T>, b: seq<T>, n: nat)
    requires SuffixOf(a, b)
    ensures SuffixOf(LastN(a, n), b)
  {
  }

  /** Whatever a file holds, the lines read from its tail are whole lines of it and a suffix of them. */
  lemma {:induction false} TailIsWholeLines(content: string, maxBytes: int, maxRecords: nat)
    ensures SuffixOf(LastN(Lines(WindowPieces(content, maxBytes)), maxRecords), Lines(Split(content)))
  {
    WindowSuffix(content, maxBytes);
    LinesSuffix(WindowPieces(content, maxBytes), Split(content));
    LastNSuffix(Lines(WindowPieces(content, maxBytes)), Lines(Split(content)), maxRecords);
  }

  lemma {:induction false} ParseBounded<T>(c: Codec<T>, lines: seq<string>)
    ensures |Parse(c, lines)| <= |lines|
    decreases |lines|
  {
    if lines != [] {
      ParseBounded(c, lines[..|lines| - 1]);
    }
  }

  lemma {:induction false} TailBounded<T>(c: Codec<T>, content: string, maxBytes: int, maxRecords: nat)
    ensures |TailReader(c, maxBytes)(content, maxRecords)| <= maxRecords
  {
    ParseBounded(c, LastN(Lines(WindowPieces(content, maxBytes)), maxRecords));
  }

  lemma {:induction false} LoadWithin<T>(read: (string, nat) -> seq<T>, contents: seq<string>, maxRecords: int)
    requires forall i, k: nat :: 0 <= i < |contents| ==> |read(contents[i], k)| <= k
    ensures |Load(read, contents, maxRecords)| <= Max(0, maxRecords)
    decreases |contents|
  {
    if contents != [] && maxRecords > 0 {
      LoadWithin(read, contents[..|contents| - 1], maxRecords - |read(contents[|contents| - 1], maxRecords)|);
    }
  }

  /** Whatever the files hold, no more than the asked number of records comes back. */
  lemma {:induction false} LoadBounded<T>(c: Codec<T>, contents: seq<string>, maxBytes: int, maxRecords: int)
    ensures |Load(TailReader(c, maxBytes), contents, maxRecords)| <= Max(0, maxRecords)
  {
    forall i, k: nat | 0 <= i < |contents|
      ensures |TailReader(c, maxBytes)(contents[i], k)| <= k
    {
      TailBounded(c, contents[i], maxBytes, k);
    }
    LoadWithin(TailReader(c, maxBytes), contents, maxRecords);
  }

  // ---- Files this writer wrote

  /** The text of a file holding these records. */
  function RecordsText<T>(c: Codec<T>, records: seq<T>): string {
    FileText(Map(c.encode, records))
  }

  /** How many lines start at or before byte `start` of the file. */
  function StartedBy(lines: seq<string>, start: nat): (k: nat)
    ensures k <= |lines|
  {
    if lines == [] then 0
    else if start <= |lines[0]| then 1
    else 1 + StartedBy(lines[1..], start - |lines[0]| - 1)
  }

  /** A line counts exactly when the text before it ends at or before that byte. */
  lemma {:induction false} StartedByPosition(lines: seq<string>, start: nat, i: nat)
    requires i < |lines|
    ensures i < StartedBy(lines, start) <==> |FileText(lines[..i])| <= start
    decreases |lines|
  {
    if i == 0 {
      assert lines[..0] == [];
    } else {
      assert lines[..i][1..] == lines[1..][..i - 1];
      assert |FileText(lines[..i])| == |lines[0]| + 1 + |FileText(lines[1..][..i - 1])|;
      if start > |lines[0]| {
        StartedByPosition(lines[1..], start - |lines[0]| - 1, i - 1);
      }
    }
  }

  /** The records of a file that a tail read can see: all of it, or those whose line starts inside the window. */
  function Visible<T>(c: Codec<T>, records: seq<T>, maxBytes: int): (r: seq<T>)
    ensures SuffixOf(r, records)
    ensures |RecordsText(c, records)| <= maxBytes ==> r == records
  {
    var start := StartOffset(|RecordsText(c, records)|, maxBytes);
    if start == 0 then records else records[StartedBy(Map(c.encode, records), start)..]
  }

  ghost predicate AllPlain(lines: seq<string>) {
    forall i :: 0 <= i < |lines| ==> Plain(lines[i])
  }

  lemma {:induction false} SplitText(lines: seq<string>)
    requires AllPlain(lines)
    ensures Split(FileText(lines)) == lines + [""]
    decreases |lines|
  {
    if lines != [] {
      SplitText(lines[1..]);
      SplitAfterLine(lines[0], FileText(lines[1..]));
      assert [lines[0]] + (lines[1..] + [""]) == lines + [""];
    }
  }

  lemma {:induction false} CutBeyondFirst(lines: seq<string>, start: nat)
    requires lines != [] && |lines[0]| < start <= |FileText(lines)|
    ensures
      var rest, at := lines[1..], start - |lines[0]| - 1;
      && at <= |FileText(rest)| && FileText(lines)[start..] == FileText(rest)[at..]
      && (start < |FileText(lines)| <==> at < |FileText(rest)|)
      && lines[StartedBy(lines, start)..] == rest[StartedBy(rest, at)..]
  {
    var line, rest := lines[0] + "\n", FileText(lines[1..]);
    assert FileText(lines) == line + rest;
    DropFirst(line, rest, start);
  }

  lemma {:induction false} DropFirst<T>(a: seq<T>, b: seq<T>, k: nat)
    requires |a| <= k <= |a + b|
    ensures (a + b)[k..] == b[k - |a|..]
  {
  }

  /** A cut inside written text leaves the lines that start after it, and the empty piece after the last one. */
  lemma {:induction false} SplitCut(lines: seq<string>, start: nat)
    requires AllPlain(lines) && 0 <= start <= |FileText(lines)| && lines != []
    ensures Split(FileText(lines)[start..])[1..]
         == lines[StartedBy(lines, start)..] + if start < |FileText(lines)| then [""] else []
    decreases |lines|
  {
    if start <= |lines[0]| {
      CutFirstLine(lines, start);
    } else {
      CutBeyondFirst(lines, start);
      if lines[1..] == [] {
        assert FileText(lines[1..]) == "";
      } else {
        hide Split, FileText, StartedBy;
        SplitCut(lines[1..], start - |lines[0]| - 1);
      }
    }
  }

  lemma {:induction false} CutFirstLine(lines: seq<string>, start: nat)
    requires AllPlain(lines) && lines != [] && start <= |lines[0]|
    ensures Split(FileText(lines)[start..])[1..] == lines[1..] + [""]
  {
    var line, rest := lines[0][start..], FileText(lines[1..]);
    assert FileText(lines)[start..] == line + "\n" + rest;
    SplitAfterLine(line, rest);
    SplitText(lines[1..]);
  }

  lemma {:induction false} PlainTrim(line: string)
    requires Plain(line)
    ensures Trim(line) == line
  {
  }

  lemma {:induction false} PlainLines(lines: seq<string>)
    requires AllPlain(lines)
    ensures Lines(lines) == lines && Lines(lines + [""]) == lines
    decreases |lines|
  {
    MapAppend(Trimmed(), lines, [""]);
    assert Map(Trimmed(), [""]) == [""];
    FilterSnoc(NonEmpty(), Map(Trimmed(), lines), "");
    if lines == [] {
      assert Map(Trimmed(), lines) == [];
    } else {
      var n := |lines| - 1;
      PlainLines(lines[..n]);
      PlainTrim(lines[n]);
      assert lines == lines[..n] + [lines[n]];
      MapAppend(Trimmed(), lines[..n], [lines[n]]);
      assert Map(Trimmed(), [lines[n]]) == [lines[n]];
      FilterSnoc(NonEmpty(), Map(Trimmed(), lines[..n]), lines[n]);
    }
  }

  lemma {:induction false} ParseEncoded<T(!new)>(c: Codec<T>, records: seq<T>)
    requires Faithful(c)
    ensures Parse(c, Map(c.encode, records)) == records
    decreases |records|
  {
    if records != [] {
      var n := |records| - 1;
      ParseEncoded(c, records[..n]);
      assert Map(c.encode, records)[..n] == Map(c.encode, records[..n]);
      assert Plain(c.encode(records[n]));
    }
  }

  lemma {:induction false} WrittenCut(lines: seq<string>, maxBytes: int)
    requires AllPlain(lines) && StartOffset(|FileText(lines)|, maxBytes) > 0
    ensures
      var k := StartedBy(lines, StartOffset(|FileText(lines)|, maxBytes));
      var pieces := WindowPieces(FileText(lines), maxBytes);
      pieces == lines[k..] || pieces == lines[k..] + [""]
  {
    var text := FileText(lines);
    var start := StartOffset(|text|, maxBytes);
    var at := Min(start, |text|);
    assert Window(text, maxBytes) == text[at..];
    if lines != [] {
      SplitCut(lines, at);
      PastTheEnd(lines, start);
      assert lines[StartedBy(lines, start)..] + [] == lines[StartedBy(lines, start)..];
    }
  }

  lemma {:induction false} WrittenWhole(lines: seq<string>, maxBytes: int)
    requires AllPlain(lines) && StartOffset(|FileText(lines)|, maxBytes) == 0
    ensures WindowPieces(FileText(lines), maxBytes) == lines + [""]
  {
    SplitText(lines);
    assert Window(FileText(lines), maxBytes) == FileText(lines);
  }

  lemma {:induction false} WrittenLines<T(!new)>(c: Codec<T>, records: seq<T>, maxBytes: int)
    requires Faithful(c)
    ensures Lines(WindowPieces(RecordsText(c, records), maxBytes)) == Map(c.encode, Visible(c, records, maxBytes))
  {
    var lines := Map(c.encode, records);
    var start := StartOffset(|FileText(lines)|, maxBytes);
    assert AllPlain(lines);
    hide FileText, WindowPieces, Lines, StartedBy, StartOffset, Plain;
    if start == 0 {
      WrittenWhole(lines, maxBytes);
      PlainLines(lines);
    } else {
      WrittenCut(lines, maxBytes);
      var k := StartedBy(lines, start);
      PlainLines(lines[k..]);
      assert Map(c.encode, records[k..]) == lines[k..];
    }
  }

  lemma {:induction false} PastTheEnd(lines: seq<string>, start: nat)
    ensures start >= |FileText(lines)| ==> StartedBy(lines, start) == |lines|
    decreases |lines|
  {
    if lines != [] && start > |lines[0]| {
      PastTheEnd(lines[1..], start - |lines[0]| - 1);
    }
  }

  lemma {:induction false} PickedRecords<T(!new)>(c: Codec<T>, lines: seq<string>, seen: seq<T>, maxRecords: nat)
    requires Faithful(c) && lines == Map(c.encode, seen)
    ensures Parse(c, LastN(lines, maxRecords)) == LastN(seen, maxRecords)
  {
    assert LastN(lines, maxRecords) == Map(c.encode, LastN(seen, maxRecords));
    ParseEncoded(c, LastN(seen, maxRecords));
  }

  /** Reading the tail of a written file gives the last visible records, in the order they were written. */
  lemma {:induction false} TailOfWritten<T(!new)>(c: Codec<T>, records: seq<T>, maxBytes: int, maxRecords: nat)
    requires Faithful(c)
    ensures TailReader(c, maxBytes)(RecordsText(c, records), maxRecords) ==
        LastN(Visible(c, records, maxBytes), maxRecords)
  {
    WrittenLines(c, records, maxBytes);
    PickedRecords(c, Lines(WindowPieces(RecordsText(c, records), maxBytes)), Visible(c, records, maxBytes), maxRecords);
  }

  lemma {:induction false} LastNone<T>(s: seq<T>, n: nat)
    ensures n == 0 ==> LastN(s, n) == []
  {
  }

  lemma {:induction false} LastAcross<T>(a: seq<T>, b: seq<T>, n: nat)
    ensures LastN(a + b, n) == LastN(a, n - |LastN(b, n)|) + LastN(b, n)
  {
  }

  /** The visible part of every file, oldest first. */
  function VisibleFiles<T>(c: Codec<T>, files: seq<seq<T>>, maxBytes: int): seq<seq<T>> {
    Map((records: seq<T>) => Visible(c, records, maxBytes), files)
  }

  /** One round of the loading loop. */
  lemma {:induction false} LoadFilesStep<T>(read: (string, nat) -> seq<T>, contents: seq<string>, n: int)
    requires contents != [] && n > 0
    ensures
      var m, tail := |contents| - 1, read(contents[|contents| - 1], n);
      Load(read, contents, n) == Load(read, contents[..m], n - |tail|) + tail
  {
  }

  /** Asking each file for what is missing is taking the last records of all of them. */
  lemma {:induction false} LoadTails<T>(read: (string, nat) -> seq<T>, contents: seq<string>, seen: seq<seq<T>>, n: nat)
    requires |contents| == |seen|
    requires forall i, k: nat :: 0 <= i < |contents| ==> read(contents[i], k) == LastN(seen[i], k)
    ensures Load(read, contents, n) == LastN(Flatten(seen), n)
    decreases |contents|
  {
    if contents == [] || n == 0 {
      LastNone(Flatten(seen), n);
    } else {
      var m := |contents| - 1;
      var k := n - |LastN(seen[m], n)|;
      LoadFilesStep(read, contents, n);
      assert read(contents[m], n) == LastN(seen[m], n);
      hide LastN, Load;
      LoadTails(read, contents[..m], seen[..m], k);
      LastAcross(Flatten(seen[..m]), seen[m], n);
    }
  }

  /** Loading from written files gives exactly the last records of what is visible in them. */
  lemma {:induction false} LoadIsLast<T(!new)>(c: Codec<T>, files: seq<seq<T>>, contents: seq<string>, maxBytes: int,
      n: nat)
    requires Faithful(c) && |contents| == |files|
    requires forall i :: 0 <= i < |files| ==> contents[i] == RecordsText(c, files[i])
    ensures Load(TailReader(c, maxBytes), contents, n) == LastN(Flatten(VisibleFiles(c, files, maxBytes)), n)
  {
    forall i, k: nat | 0 <= i < |contents|
      ensures TailReader(c, maxBytes)(contents[i], k) == LastN(VisibleFiles(c, files, maxBytes)[i], k)
    {
      TailOfWritten(c, files[i], maxBytes, k);
    }
    LoadTails(TailReader(c, maxBytes), contents, VisibleFiles(c, files, maxBytes), n);
  }
}
