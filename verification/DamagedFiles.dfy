/** Loading from daily files of any content: which records come back when some lines do not parse. */
module DamagedFiles {
  import opened Wrappers
  import opened Sequences
  import opened DailyFiles

  /** The lines that a tail read of a file can see. */
  function SeenLines(maxBytes: int): string -> seq<string> {
    (content: string) => Lines(WindowPieces(content, maxBytes))
  }

  /** All records that tail reads of these files can see, oldest file first. */
  function ValidRecords<T>(c: Codec<T>, files: seq<seq<string>>): seq<T> {
    if files == [] then [] else ValidRecords(c, files[..|files| - 1]) + Parse(c, files[|files| - 1])
  }

  /** The loading loop on the lines seen. */
  function LoadLines<T>(c: Codec<T>, files: seq<seq<string>>, n: int): seq<T>
    decreases |files|
  {
    if files == [] || n <= 0 then []
    else
      var tail := Parse(c, LastN(files[|files| - 1], n));
      LoadLines(c, files[..|files| - 1], n - |tail|) + tail
  }

  lemma {:induction false} ReadsSeen<T>(c: Codec<T>, content: string, maxBytes: int, n: nat)
    ensures TailReader(c, maxBytes)(content, n) == Parse(c, LastN(SeenLines(maxBytes)(content), n))
  {
  }

  /** One round of the loading loop. */
  lemma {:induction false} LoadStep<T>(c: Codec<T>, files: seq<seq<string>>, n: int)
    requires files != [] && n > 0
    ensures
      var m, tail := |files| - 1, Parse(c, LastN(files[|files| - 1], n));
      && LoadLines(c, files, n) == LoadLines(c, files[..m], n - |tail|) + tail
      && (NothingHidden(c, files, n) <==> Unhidden(c, files[m], n) && NothingHidden(c, files[..m], n - |tail|))
  {
    hide Parse, LastN, Unhidden;
  }

  lemma {:induction false} LoadNoLines<T>(c: Codec<T>, files: seq<seq<string>>, n: int)
    requires files == [] || n <= 0
    ensures LoadLines(c, files, n) == []
  {
    hide Parse, LastN;
  }

  lemma {:induction false} LoadNothing<T>(c: Codec<T>, contents: seq<string>, maxBytes: int, n: int)
    requires contents == [] || n <= 0
    ensures Load(TailReader(c, maxBytes), contents, n) == LoadLines(c, Map(SeenLines(maxBytes), contents), n) == []
  {
    hide Parse, LastN;
  }

  lemma {:induction false} LoadIsLoadLines<T>(c: Codec<T>, contents: seq<string>, maxBytes: int, n: int)
    ensures Load(TailReader(c, maxBytes), contents, n) == LoadLines(c, Map(SeenLines(maxBytes), contents), n)
    decreases |contents|
  {
    hide *;
    if contents == [] || n <= 0 {
      LoadNothing(c, contents, maxBytes, n);
    } else {
      var m := |contents| - 1;
      var files := Map(SeenLines(maxBytes), contents);
      assert files[..m] == Map(SeenLines(maxBytes), contents[..m]);
      ReadsSeen(c, contents[m], maxBytes, n);
      LoadFilesStep(TailReader(c, maxBytes), contents, n);
      LoadStep(c, files, n);
      LoadIsLoadLines(c, contents[..m], maxBytes, n - |Parse(c, LastN(files[m], n))|);
    }
  }

  /** The lines before the last k. */
  function Dropped(lines: seq<string>, k: nat): seq<string> {
    lines[..|lines| - |LastN(lines, k)|]
  }

  /** The last k lines lose no record to lines that do not parse: all of them parse, or nothing before them does. */
  predicate Unhidden<T>(c: Codec<T>, lines: seq<string>, k: nat) {
    |Parse(c, LastN(lines, k))| == k || Parse(c, Dropped(lines, k)) == []
  }

  /** The same for every file that is asked, with the number it is asked for. */
  predicate NothingHidden<T>(c: Codec<T>, files: seq<seq<string>>, n: int)
    decreases |files|
  {
    files == [] || n <= 0 ||
    var lines := files[|files| - 1];
    Unhidden(c, lines, n) && NothingHidden(c, files[..|files| - 1], n - |Parse(c, LastN(lines, n))|)
  }

  lemma {:induction false} ParseAppend<T>(c: Codec<T>, a: seq<string>, b: seq<string>)
    ensures Parse(c, a + b) == Parse(c, a) + Parse(c, b)
    decreases |b|
  {
    if b == [] {
      assert a + b == a;
    } else {
      var n := |b| - 1;
      ParseAppend(c, a, b[..n]);
      assert (a + b)[..|a + b| - 1] == a + b[..n];
    }
  }

  lemma {:induction false} TailParts<T>(c: Codec<T>, lines: seq<string>, k: nat)
    ensures Parse(c, lines) == Parse(c, Dropped(lines, k)) + Parse(c, LastN(lines, k))
    ensures |Parse(c, LastN(lines, k))| <= k
  {
    assert lines == Dropped(lines, k) + LastN(lines, k);
    ParseAppend(c, Dropped(lines, k), LastN(lines, k));
    ParseBounded(c, LastN(lines, k));
  }

  /** The last n of three parts, when the last part is at most n long. */
  lemma {:induction false} LastOfParts<T>(older: seq<T>, head: seq<T>, tail: seq<T>, n: nat)
    requires |tail| <= n && (|tail| == n || head == [])
    ensures LastN(older + (head + tail), n) == LastN(older, n - |tail|) + tail
  {
  }

  lemma {:induction false} ValidStep<T>(c: Codec<T>, files: seq<seq<string>>, n: nat, x: T)
    requires files != []
    ensures x in ValidRecords(c, files[..|files| - 1]) || x in Parse(c, LastN(files[|files| - 1], n)) ==>
      x in ValidRecords(c, files)
  {
    TailParts(c, files[|files| - 1], n);
  }

  /** What comes back are records of the files. */
  lemma {:induction false} LoadedAreValid<T>(c: Codec<T>, files: seq<seq<string>>, n: int, x: T)
    requires x in LoadLines(c, files, n)
    ensures x in ValidRecords(c, files)
    decreases |files|
  {
    hide *;
    if files == [] || n <= 0 {
      LoadNoLines(c, files, n);
    } else {
      var m := |files| - 1;
      var tail := Parse(c, LastN(files[m], n));
      LoadStep(c, files, n);
      ValidStep(c, files, n, x);
      if x !in tail {
        LoadedAreValid(c, files[..m], n - |tail|, x);
      }
    }
  }

  lemma {:induction false} LoadUnhidden<T>(c: Codec<T>, files: seq<seq<string>>, n: nat)
    requires NothingHidden(c, files, n)
    ensures LoadLines(c, files, n) == LastN(ValidRecords(c, files), n)
    decreases |files|
  {
    if files != [] && n > 0 {
      var m := |files| - 1;
      var head, tail := Parse(c, Dropped(files[m], n)), Parse(c, LastN(files[m], n));
      TailParts(c, files[m], n);
      LoadUnhidden(c, files[..m], n - |tail|);
      LastOfParts(ValidRecords(c, files[..m]), head, tail, n);
    } else {
      LastNone(ValidRecords(c, files), n);
    }
  }

  /** Dropping a record of the newest file leaves a result that is not the last n. */
  lemma {:induction false} HiddenDiffers<T>(older: seq<T>, head: seq<T>, tail: seq<T>, loaded: seq<T>, n: nat)
    requires Distinct(older + (head + tail)) && |tail| < n && head != []
    requires forall x :: x in loaded ==> x in older
    ensures loaded + tail != LastN(older + (head + tail), n)
  {
    if loaded + tail == LastN(older + (head + tail), n) {
      BeforeTail(older, head, tail, loaded, n);
      Repeated(older, head, tail);
    }
  }

  lemma {:induction false} Repeated<T>(older: seq<T>, head: seq<T>, tail: seq<T>)
    requires head != [] && head[|head| - 1] in older
    ensures !Distinct(older + (head + tail))
  {
    var all, x := older + (head + tail), head[|head| - 1];
    var j :| 0 <= j < |older| && older[j] == x;
    assert all[j] == x && all[|older| + |head| - 1] == x;
  }

  lemma {:induction false} BeforeTail<T>(older: seq<T>, head: seq<T>, tail: seq<T>, loaded: seq<T>, n: nat)
    requires |tail| < n && head != [] && loaded + tail == LastN(older + (head + tail), n)
    ensures head[|head| - 1] in loaded
  {
    var last := LastN(older + (head + tail), n);
    assert last[|last| - |tail| - 1] == head[|head| - 1];
    assert (loaded + tail)[|loaded| - 1] == loaded[|loaded| - 1];
  }

  lemma {:induction false} DistinctPrefix<T>(a: seq<T>, b: seq<T>)
    requires Distinct(a + b)
    ensures Distinct(a)
  {
    assert forall i :: 0 <= i < |a| ==> (a + b)[i] == a[i];
  }

  lemma {:induction false} SameTails<T>(a: seq<T>, b: seq<T>, tail: seq<T>)
    requires a + tail == b + tail
    ensures a == b
  {
    assert |a| == |b|;
    assert (a + tail)[..|a|] == a && (b + tail)[..|b|] == b;
  }

  /** The newest file hides a record. */
  lemma {:induction false} NewestHides<T>(c: Codec<T>, older: seq<seq<string>>, lines: seq<string>, n: nat)
    requires Distinct(ValidRecords(c, older) + Parse(c, lines)) && n > 0 && !Unhidden(c, lines, n)
    ensures
      var tail := Parse(c, LastN(lines, n));
      LoadLines(c, older, n - |tail|) + tail != LastN(ValidRecords(c, older) + Parse(c, lines), n)
  {
    var head, tail := Parse(c, Dropped(lines, n)), Parse(c, LastN(lines, n));
    var loaded := LoadLines(c, older, n - |tail|);
    TailParts(c, lines, n);
    hide ValidRecords, LoadLines, Parse, LastN, Dropped;
    forall x | x in loaded
      ensures x in ValidRecords(c, older)
    {
      LoadedAreValid(c, older, n - |tail|, x);
    }
    HiddenDiffers(ValidRecords(c, older), head, tail, loaded, n);
  }

  /** The newest file hides nothing: what is left to ask is the older files' last records. */
  lemma {:induction false} NewestShows<T>(c: Codec<T>, older: seq<seq<string>>, lines: seq<string>, n: nat)
    requires n > 0 && Unhidden(c, lines, n)
    requires
      var tail := Parse(c, LastN(lines, n));
      LoadLines(c, older, n - |tail|) + tail == LastN(ValidRecords(c, older) + Parse(c, lines), n)
    ensures
      var k := n - |Parse(c, LastN(lines, n))|;
      k >= 0 && LoadLines(c, older, k) == LastN(ValidRecords(c, older), k)
  {
    var head, tail := Parse(c, Dropped(lines, n)), Parse(c, LastN(lines, n));
    TailParts(c, lines, n);
    hide ValidRecords, LoadLines, Parse, LastN, Dropped;
    LastOfParts(ValidRecords(c, older), head, tail, n);
    SameTails(LoadLines(c, older, n - |tail|), LastN(ValidRecords(c, older), n - |tail|), tail);
  }

  lemma {:induction false} LoadHidden<T>(c: Codec<T>, files: seq<seq<string>>, n: nat)
    requires Distinct(ValidRecords(c, files))
    requires LoadLines(c, files, n) == LastN(ValidRecords(c, files), n)
    ensures NothingHidden(c, files, n)
    decreases |files|
  {
    if files != [] && n > 0 {
      var m := |files| - 1;
      LoadStep(c, files, n);
      assert ValidRecords(c, files) == ValidRecords(c, files[..m]) + Parse(c, files[m]);
      hide *;
      DistinctPrefix(ValidRecords(c, files[..m]), Parse(c, files[m]));
      if Unhidden(c, files[m], n) {
        NewestShows(c, files[..m], files[m], n);
        LoadHidden(c, files[..m], n - |Parse(c, LastN(files[m], n))|);
      } else {
        NewestHides(c, files[..m], files[m], n);
      }
    }
  }

  /** Whatever the files hold: the last n of all their records come back when no file loses one to lines that do not
      parse, and, when all records are different, only then. */
  lemma {:induction false} LoadIff<T>(c: Codec<T>, contents: seq<string>, maxBytes: int, n: nat)
    ensures
      var files := Map(SeenLines(maxBytes), contents);
      var loaded, all := Load(TailReader(c, maxBytes), contents, n), ValidRecords(c, files);
      && (NothingHidden(c, files, n) ==> loaded == LastN(all, n))
      && (Distinct(all) && loaded == LastN(all, n) ==> NothingHidden(c, files, n))
  {
    var files := Map(SeenLines(maxBytes), contents);
    LoadIsLoadLines(c, contents, maxBytes, n);
    if NothingHidden(c, files, n) {
      LoadUnhidden(c, files, n);
    }
    if Distinct(ValidRecords(c, files)) && LoadLines(c, files, n) == LastN(ValidRecords(c, files), n) {
      LoadHidden(c, files, n);
    }
  }

  lemma {:induction false} BothSeen(good: string, bad: string, maxBytes: int)
    requires Plain(good) && Plain(bad) && |FileText([good, bad])| <= maxBytes
    ensures SeenLines(maxBytes)(FileText([good, bad])) == [good, bad]
  {
    var lines, text := [good, bad], FileText([good, bad]);
    SplitText(lines);
    PlainLines(lines);
    assert Window(text, maxBytes) == text;
    hide Split, FileText, Lines;
    assert WindowPieces(text, maxBytes) == lines + [""];
  }

  lemma {:induction false} ParseOne<T>(c: Codec<T>, line: string)
    ensures Parse(c, [line]) == match c.parse(line) case Some(r) => [r] case None => []
  {
    assert [line][..0] == [];
  }

  lemma {:induction false} LoadOne<T>(c: Codec<T>, maxBytes: int, content: string, a: string, b: string)
    requires SeenLines(maxBytes)(content) == [a, b]
    ensures LoadLines(c, Map(SeenLines(maxBytes), [content]), 1) == Parse(c, [b])
  {
    hide SeenLines, Parse;
    assert Map(SeenLines(maxBytes), [content]) == [[a, b]];
    assert LastN([a, b], 1) == [b] && [[a, b]][..0] == [];
  }

  /** Lines that do not parse do hide records: asked for one, a file that ends with such a line gives nothing. */
  lemma {:induction false} BadLineHides<T>(c: Codec<T>, good: string, bad: string, r: T, maxBytes: int)
    requires Plain(good) && Plain(bad) && c.parse(good) == Some(r) && c.parse(bad) == None
    requires |FileText([good, bad])| <= maxBytes
    ensures Load(TailReader(c, maxBytes), [FileText([good, bad])], 1) == []
    ensures Parse(c, SeenLines(maxBytes)(FileText([good, bad]))) == [r]
  {
    hide *;
    var text := FileText([good, bad]);
    BothSeen(good, bad, maxBytes);
    ParseOne(c, good);
    ParseOne(c, bad);
    ParseAppend(c, [good], [bad]);
    assert [good] + [bad] == [good, bad];
    LoadIsLoadLines(c, [text], maxBytes, 1);
    LoadOne(c, maxBytes, text, good, bad);
  }
}
