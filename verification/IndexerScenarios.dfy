/** A lookup that fails once leaves a record partial, whatever is read later, until a restart. */
module IndexerScenarios {
  import opened Wrappers
  import opened Sequences
  import opened OpRecords
  import opened OpJoin
  import opened ChainRanges
  import opened DailyFiles
  import R = Restart

  const ENTRY := EntryLog(1, "0xaa", 0, "0x01", "0x02", "0x03", "0", true, "700", "100")

  const POST := PostLog(1, "0xaa", 1, "0x02", "0x01", OpSucceeded, "700", "7", "800")

  /** One sponsored operation in block 1. */
  const ONE_OP := Chain(1, [ENTRY], [POST], [], block => 60, tx => None)

  /** Block 1 is read while the sender of the operation's transaction cannot be read, and again when it can. */
  const TWICE := [Read(Range(1, 1), Lookups(l => false, l => true)), Read(Range(1, 1), ALL_FOUND)]

  lemma {:induction false} OneOpWellFormed()
    ensures WellFormed(ONE_OP) && UsesGas(ONE_OP)
  {
    assert SameOp(ENTRY, POST);
    assert ONE_OP.entryLogs[0] == ENTRY && ONE_OP.postLogs[0] == POST;
  }

  lemma {:induction false} TwiceNotInOrder()
    ensures !InOrder(ONE_OP, [], TWICE)
  {
    assert TWICE[0].HasPost(POST) && POST in ONE_OP.postLogs;
    assert [] + TWICE[..1] == [TWICE[0]];
    assert !HasOp(ONE_OP, [TWICE[0]], POST);
  }

  /** The second read yields the EntryPoint event, and the record is still the partial one. */
  lemma {:induction false} PartialRecordStays()
    ensures WellFormed(ONE_OP) && TWICE[1].HasEntry(ENTRY)
    ensures
      var m := IngestBatches(ReadBatches(ONE_OP, TWICE));
      m.Get(PostKey(PostEvent(ONE_OP, POST))) == Some(Partial(PostEvent(ONE_OP, POST))) &&
          m.entries != ReadsJoin(ONE_OP, TWICE)
  {
    OneOpWellFormed();
    TwiceNotInOrder();
    var post := OutOfOrderPartial(ONE_OP, TWICE);
    OutOfOrderDiffers(ONE_OP, TWICE);
  }

  lemma {:induction false} OneOfEach(rd: Read)
    ensures
      var b := RangeBatch(ONE_OP, rd.range, rd.found);
      |b.entries| <= 1 && |b.posts| <= 1
  {
    assert [ENTRY][..0] == [] && [POST][..0] == [];
    assert |Filter(EntryIn(rd.range), [ENTRY])| <= 1 && |Filter(PostIn(rd.range), [POST])| <= 1;
    AtMostOne(rd.found.entry, Filter(EntryIn(rd.range), [ENTRY]));
    AtMostOne(rd.found.post, Filter(PostIn(rd.range), [POST]));
  }

  lemma {:induction false} AtMostOne<T>(keep: T -> bool, s: seq<T>)
    requires |s| <= 1
    ensures |Filter(keep, s)| <= 1
  {
    assert s != [] ==> s[..|s| - 1] == [];
  }

  lemma {:induction false} TwiceLogged()
    ensures |AllEntries(ReadBatches(ONE_OP, TWICE))| <= 2 && |AllPosts(ReadBatches(ONE_OP, TWICE))| <= 2
  {
    assert TWICE == ([] + [TWICE[0]]) + [TWICE[1]];
    ReadBatchesSnoc(ONE_OP, [], TWICE[0]);
    ReadBatchesSnoc(ONE_OP, [] + [TWICE[0]], TWICE[1]);
    OneOfEach(TWICE[0]);
    OneOfEach(TWICE[1]);
    hide RangeBatch;
    AllSnoc([], RangeBatch(ONE_OP, TWICE[0].range, TWICE[0].found));
    AllSnoc(ReadBatches(ONE_OP, [] + [TWICE[0]]), RangeBatch(ONE_OP, TWICE[1].range, TWICE[1].found));
  }

  /** A restart reads both events from the daily logs, EntryPoint events first: the partial record becomes the join, and
      the records are not those that never stopping would have given. */
  lemma {:induction false} RestartCompletesRecord(entryCodec: Codec<EntryPointEvent>,
      postCodec: Codec<PaymasterEvent>, n: nat)
    requires n >= 2
    ensures
      var bs, k := ReadBatches(ONE_OP, TWICE), PostKey(PostEvent(ONE_OP, POST));
      var after := IngestBatches([R.Restored(entryCodec, postCodec, AllEntries(bs), AllPosts(bs), n)]);
      && IngestBatches(bs).Get(k) == Some(Partial(PostEvent(ONE_OP, POST)))
      && after.Get(k) == Some(Joined(ChainEvent(ONE_OP, ENTRY), Some(PostEvent(ONE_OP, POST))))
  {
    OneOpWellFormed();
    PartialRecordStays();
    TwiceLogged();
    assert TWICE[1].HasEntry(ENTRY) && ENTRY in ONE_OP.entryLogs;
    assert TWICE[1].HasPost(POST) && POST in ONE_OP.postLogs;
    assert SameOp(ENTRY, POST);
    hide *;
    R.RestartCompletes(entryCodec, postCodec, ONE_OP, TWICE, n, ENTRY, POST);
  }
}
