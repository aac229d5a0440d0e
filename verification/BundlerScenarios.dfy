/** A run of the bundler that submits fewer operations than its setting. */
module BundlerScenarios {
  import opened Wrappers
  import opened Sequences
  import opened JsMaps
  import opened BundlerState

  const SETTING := 2

  function Op(hash: string, receivedAt: int, status: Status): EntryState {
    EntryState(hash, receivedAt, status, if status.Pending? then None else Some("tx"),
        if status.Mined? then Some("receipt") else None)
  }

  const POOL: JsMap<string, nat> := JsMap(["a", "b"], map["a" := 0, "b" := 1])

  const FULL_POOL: JsMap<string, nat> := JsMap(["a", "b", "c"], map["a" := 0, "b" := 1, "c" := 2])

  const ACCEPTED := State([Op("a", 0, Pending), Op("b", 1, Pending)], POOL, false, [], [])

  const SUBMITTED := State([Op("a", 0, Sent), Op("b", 1, Sent)], POOL, true, [Task([0, 1], Submitted(0))], [[0, 1]])

  const FINISHED := State([Op("a", 0, Mined), Op("b", 1, Mined)], POOL, false, [], [[0, 1]])

  const THIRD := State([Op("a", 0, Mined), Op("b", 1, Mined), Op("c", 2, Pending)], FULL_POOL, false, [], [[0, 1]])

  lemma {:induction false} TwoAccepted()
    ensures Step(SETTING, Step(SETTING, INIT, Accept("a", 0)), Accept("b", 1)) == ACCEPTED
  {
    var s1 := Step(SETTING, INIT, Accept("a", 0));
    assert s1.entries == [Op("a", 0, Pending)];
    assert s1.pool.keys == ["a"];
    assert s1.pool.entries == map["a" := 0];
    assert "b" !in s1.pool.entries;
  }

  lemma {:induction false} FilterTwo(p: nat -> bool)
    ensures Filter(p, [0, 1]) == (if p(0) then [0] else []) + if p(1) then [1] else []
  {
    FilterSnoc(p, [0], 1);
    FilterSnoc(p, [], 0);
    assert [0] + [1] == [0, 1] && [] + [0] == [0];
  }

  lemma {:induction false} PendingBoth()
    ensures PendingIds(ACCEPTED) == [0, 1]
  {
    var p := (id: nat) => IsPending(ACCEPTED, id);
    assert POOL.Values() == [0, 1];
    FilterTwo(p);
    FilterCongruent(p, id => IsPending(ACCEPTED, id), [0, 1]);
  }

  /** A selection from two ids in receive order is those two. */
  lemma {:induction false} SelectsInOrder(s: State)
    requires PoolConsistent(s) && PendingIds(s) == [0, 1] && ReceivedAt(s, 0) < ReceivedAt(s, 1)
    ensures SelectPending(SETTING, s) == [0, 1]
  {
    var b := SelectPending(SETTING, s);
    SelectionMembers(SETTING, s);
    SelectionOldest(SETTING, s);
    PendingOnly(s);
    assert b[0] in b && b[1] in b;
  }

  lemma {:induction false} PendingOnly(s: State)
    requires s.pool.Valid()
    ensures forall id | id in s.pool.Values() && IsPending(s, id) :: id in PendingIds(s)
  {
    forall id | id in s.pool.Values() && IsPending(s, id)
      ensures id in PendingIds(s)
    {
      FilterMember(x => IsPending(s, x), s.pool.Values(), id);
    }
  }

  lemma {:induction false} SelectsBoth()
    ensures SelectPending(SETTING, ACCEPTED) == [0, 1]
  {
    PendingBoth();
    SelectsInOrder(ACCEPTED);
  }

  lemma {:induction false} BothSubmitted()
    ensures Step(SETTING, Step(SETTING, ACCEPTED, Forced), Submit(0, "tx")) == SUBMITTED
  {
    SelectsBoth();
    var s := Step(SETTING, ACCEPTED, Forced);
    assert s.tasks == [Task([0, 1], Preparing)] && s.bundles == [[0, 1]];
    var r := Step(SETTING, s, Submit(0, "tx"));
    assert r.entries == SUBMITTED.entries;
    assert r.tasks == SUBMITTED.tasks;
  }

  lemma {:induction false} BothMined()
    ensures Step(SETTING, Step(SETTING, Step(SETTING, SUBMITTED, MineNext(0, "receipt")), MineNext(0, "receipt")),
        End(0)) == FINISHED
  {
    var s := Step(SETTING, SUBMITTED, MineNext(0, "receipt"));
    assert s.tasks == [Task([0, 1], Submitted(1))];
    assert s.entries == [Op("a", 0, Mined), Op("b", 1, Sent)];
    var r := Step(SETTING, s, MineNext(0, "receipt"));
    assert r.tasks == [Task([0, 1], Submitted(2))];
    assert r.entries == FINISHED.entries;
  }

  lemma {:induction false} ThirdAccepted()
    ensures Step(SETTING, FINISHED, Accept("c", 2)) == THIRD
  {
    assert "c" !in POOL.entries;
    var r := Step(SETTING, FINISHED, Accept("c", 2));
    assert r.entries == THIRD.entries;
    assert r.pool.keys == FULL_POOL.keys;
    assert r.pool.entries == FULL_POOL.entries;
  }

  lemma {:induction false} PendingThird()
    ensures PendingIds(THIRD) == [2]
  {
    var p := (id: nat) => IsPending(THIRD, id);
    assert FULL_POOL.Values() == [0, 1] + [2];
    FilterTwo(p);
    FilterSnoc(p, [0, 1], 2);
    FilterCongruent(p, id => IsPending(THIRD, id), [0, 1] + [2]);
  }

  lemma {:induction false} SelectsOne(s: State)
    requires PoolConsistent(s) && PendingIds(s) == [2]
    ensures SelectPending(SETTING, s) == [2]
  {
    var b := SelectPending(SETTING, s);
    SelectionMembers(SETTING, s);
    PendingOnly(s);
    assert b[0] in b;
  }

  lemma {:induction false} SelectsThird()
    ensures SelectPending(SETTING, THIRD) == [2]
  {
    PendingThird();
    SelectsOne(THIRD);
  }

  lemma {:induction false} RunAppend(s: State, a: seq<Event>, b: seq<Event>)
    requires s.pool.Valid()
    ensures Run(SETTING, s, a + b) == Run(SETTING, Run(SETTING, s, a), b)
    decreases |b|
  {
    if b == [] {
      assert a + b == a;
    } else {
      assert (a + b)[..|a + b| - 1] == a + b[..|b| - 1];
      RunAppend(s, a, b[..|b| - 1]);
    }
  }

  lemma {:induction false} RunTwo(s: State, e: Event, f: Event)
    requires s.pool.Valid()
    ensures Run(SETTING, s, [e, f]) == Step(SETTING, Step(SETTING, s, e), f)
  {
    RunSnoc(SETTING, s, [e], f);
    RunSnoc(SETTING, s, [], e);
    assert [] + [e] == [e] && [e] + [f] == [e, f];
  }

  lemma {:induction false} RunThree(s: State, e: Event, f: Event, g: Event)
    requires s.pool.Valid()
    ensures Run(SETTING, s, [e, f, g]) == Step(SETTING, Step(SETTING, Step(SETTING, s, e), f), g)
  {
    RunTwo(s, e, f);
    RunSnoc(SETTING, s, [e, f], g);
    assert [e, f] + [g] == [e, f, g];
  }

  /** With a setting of two the third operation is bundled alone: the two finished ones still count as the mempool's
      size. */
  lemma {:induction false} PartialBundleForced()
    ensures Run(SETTING, INIT, [Accept("a", 0), Accept("b", 1)] + [Forced, Submit(0, "tx")]
                               + [MineNext(0, "receipt"), MineNext(0, "receipt"), End(0)]
                               + [Accept("c", 2), Forced]).bundles
      == [[0, 1], [2]]
  {
    var a, b := [Accept("a", 0), Accept("b", 1)], [Forced, Submit(0, "tx")];
    var c, d := [MineNext(0, "receipt"), MineNext(0, "receipt"), End(0)], [Accept("c", 2), Forced];
    RunAppend(INIT, a, b);
    RunAppend(INIT, a + b, c);
    RunAppend(INIT, a + b + c, d);
    RunTwo(INIT, Accept("a", 0), Accept("b", 1));
    TwoAccepted();
    RunTwo(ACCEPTED, Forced, Submit(0, "tx"));
    BothSubmitted();
    RunThree(SUBMITTED, MineNext(0, "receipt"), MineNext(0, "receipt"), End(0));
    BothMined();
    RunTwo(FINISHED, Accept("c", 2), Forced);
    ThirdForced();
  }

  lemma {:induction false} ThirdForced()
    ensures Step(SETTING, Step(SETTING, FINISHED, Accept("c", 2)), Forced).bundles == [[0, 1], [2]]
  {
    ThirdAccepted();
    SelectsThird();
  }
}
