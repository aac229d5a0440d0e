/**
 * The client's sponsored swap: which bundlers it tries, which fee caps it offers them, and what fee it
 * promises the paymaster. All amounts are in wei.
 */
module SwapFees {
  import opened Wrappers
  import opened Sequences
  import Sorting

  const PAYMASTER_VERIFICATION_GAS := 200_000
  const PAYMASTER_POST_OP_GAS := 200_000

  datatype Status = Up | Down | Stopped

  /** The fee floors a bundler publishes and enforces, where it has any. */
  datatype Policy = Policy(minPriorityFee: Option<int>, minMaxFee: Option<int>)

  datatype Bundler = Bundler(id: string, rpcUrl: string, status: Status, policy: Policy)

  datatype GasLimits = GasLimits(callGas: nat, verifGas: nat, preVerifGas: nat)

  /** The paymaster's pricing and the chain's fee data as the client read them. */
  datatype Pricing = Pricing(gasBufferBps: nat, fixedMarkup: nat)

  /** The fields of a sponsored operation that decide what it costs and what it pays. */
  datatype SponsoredOp = SponsoredOp(
    gas: GasLimits, maxFeePerGas: int, maxPriorityFeePerGas: int,
    paymasterVerificationGasLimit: nat, paymasterPostOpGasLimit: nat, feeAmount: int)

  datatype Caps = Caps(maxFeePerGas: int, maxPriorityFeePerGas: int)

  const GAS_GUESS := GasLimits(1_500_000, 600_000, 120_000)

  // ---- Candidates

  function Reachable(): Bundler -> bool {
    (b: Bundler) => b.rpcUrl != ""
  }

  function HasId(id: string, wanted: bool): Bundler -> bool {
    (b: Bundler) => (b.id == id) == wanted
  }

  function IsUp(): Bundler -> bool {
    (b: Bundler) => b.status.Up?
  }

  /** UP bundlers sort before the others. */
  predicate UpFirst(a: Bundler, b: Bundler) {
    a.status.Up? || !b.status.Up?
  }

  function Find(p: Bundler -> bool, list: seq<Bundler>): Option<Bundler> {
    if list == [] then None else if p(list[0]) then Some(list[0]) else Find(p, list[1..])
  }

  /** The selected bundler first, then the others with the UP ones ahead. */
  function Candidates(bundlers: seq<Bundler>, selectedId: string): seq<Bundler> {
    var list := Filter(Reachable(), bundlers);
    var selected := if selectedId != "" then Find(HasId(selectedId, true), list) else None;
    var rest := Sorting.Sort(UpFirst, Filter(HasId(selectedId, false), list));
    (if selected.Some? then [selected.value] else []) + rest
  }

  lemma {:induction false} FindFirst(p: Bundler -> bool, list: seq<Bundler>, b: Bundler)
    requires b in list && p(b)
    ensures Find(p, list).Some? && Find(p, list).value in list && p(Find(p, list).value)
    decreases |list|
  {
    if !p(list[0]) {
      FindFirst(p, list[1..], b);
    }
  }

  lemma {:induction false} FindOnly(p: Bundler -> bool, list: seq<Bundler>)
    ensures Find(p, list).Some? ==> Find(p, list).value in list && p(Find(p, list).value)
    decreases |list|
  {
    if list != [] {
      FindOnly(p, list[1..]);
    }
  }

  /** With distinct, non-empty ids the candidates are exactly the reachable bundlers. */
  lemma {:induction false} CandidatesComplete(bundlers: seq<Bundler>, selectedId: string, b: Bundler)
    requires forall i, j :: 0 <= i < j < |bundlers| ==> bundlers[i].id != bundlers[j].id
    requires forall i :: 0 <= i < |bundlers| ==> bundlers[i].id != ""
    ensures b in Candidates(bundlers, selectedId) <==> b in bundlers && b.rpcUrl != ""
  {
    var list := Filter(Reachable(), bundlers);
    var found := Find(HasId(selectedId, true), list);
    var rest := Filter(HasId(selectedId, false), list);
    FilterMember(Reachable(), bundlers, b);
    FilterMember(HasId(selectedId, false), list, b);
    Sorting.SortMember(UpFirst, rest, b);
    FindOnly(HasId(selectedId, true), list);
    if found.Some? {
      FilterMember(Reachable(), bundlers, found.value);
    }
    if b in list && b.id == selectedId {
      FindFirst(HasId(selectedId, true), list, b);
      var i :| 0 <= i < |bundlers| && bundlers[i] == b;
      var j :| 0 <= j < |bundlers| && bundlers[j] == found.value;
      assert i == j;
    }
  }

  /** After the first place no bundler that is not UP is tried before one that is. */
  lemma {:induction false} UpTriedFirst(bundlers: seq<Bundler>, selectedId: string, i: nat, j: nat)
    requires 1 <= i < j < |Candidates(bundlers, selectedId)|
    ensures Candidates(bundlers, selectedId)[j].status.Up? ==> Candidates(bundlers, selectedId)[i].status.Up?
  {
    var list := Filter(Reachable(), bundlers);
    var rest := Filter(HasId(selectedId, false), list);
    Sorting.SortSorted(UpFirst, rest);
    var c := Candidates(bundlers, selectedId);
    var k := |c| - |Sorting.Sort(UpFirst, rest)|;
    assert k <= 1;
    assert c[i] == Sorting.Sort(UpFirst, rest)[i - k] && c[j] == Sorting.Sort(UpFirst, rest)[j - k];
  }

  // ---- Fee caps

  /** The bundlers whose floors the caps are chosen for: the UP ones, or all when none is UP. */
  function FloorBundlers(candidates: seq<Bundler>): seq<Bundler> {
    if exists b :: b in candidates && b.status.Up? then Filter(IsUp(), candidates) else candidates
  }

  function MinPriority(): Bundler -> int {
    (b: Bundler) => b.policy.minPriorityFee.GetOr(0)
  }

  function MinMax(): Bundler -> int {
    (b: Bundler) => b.policy.minMaxFee.GetOr(0)
  }

  /** `Math.max(0, ...)` over a floor of every bundler. */
  function Highest(floor: Bundler -> int, bs: seq<Bundler>): int {
    if bs == [] then 0 else Max(Highest(floor, bs[..|bs| - 1]), floor(bs[|bs| - 1]))
  }

  lemma {:induction false} HighestBounds(floor: Bundler -> int, bs: seq<Bundler>, b: Bundler)
    requires b in bs
    ensures floor(b) <= Highest(floor, bs)
    decreases |bs|
  {
    if b != bs[|bs| - 1] {
      assert bs == bs[..|bs| - 1] + [bs[|bs| - 1]];
      HighestBounds(floor, bs[..|bs| - 1], b);
    }
  }

  /** The chain's suggestion raised to the floors. */
  function ChooseCaps(candidates: seq<Bundler>, suggestedMax: int, suggestedPriority: int): Caps {
    Caps(Max(suggestedMax, Highest(MinMax(), FloorBundlers(candidates))),
         Max(suggestedPriority, Highest(MinPriority(), FloorBundlers(candidates))))
  }

  /** The bundler's own admission check of the two caps. */
  predicate PassesFloors(p: Policy, caps: Caps) {
    && (p.minPriorityFee.Some? ==> caps.maxPriorityFeePerGas >= p.minPriorityFee.value)
    && (p.minMaxFee.Some? ==> caps.maxFeePerGas >= p.minMaxFee.value)
  }

  /** Every UP candidate would admit the caps, and so would every candidate when none is UP. */
  ghost predicate FloorsPassed(candidates: seq<Bundler>, caps: Caps) {
    forall b :: b in candidates && (b.status.Up? || forall c :: c in candidates ==> !c.status.Up?) ==>
        PassesFloors(b.policy, caps)
  }

  /** No UP candidate turns the caps down; when no candidate is UP, none does. */
  lemma {:induction false} CapsPass(candidates: seq<Bundler>, suggestedMax: int, suggestedPriority: int, b: Bundler)
    requires b in candidates
    requires b.status.Up? || forall c :: c in candidates ==> !c.status.Up?
    ensures PassesFloors(b.policy, ChooseCaps(candidates, suggestedMax, suggestedPriority))
  {
    FilterMember(IsUp(), candidates, b);
    HighestBounds(MinPriority(), FloorBundlers(candidates), b);
    HighestBounds(MinMax(), FloorBundlers(candidates), b);
  }

  // ---- The promised fee

  function TotalGas(gas: GasLimits): nat {
    gas.callGas + gas.verifGas + gas.preVerifGas + PAYMASTER_VERIFICATION_GAS + PAYMASTER_POST_OP_GAS
  }

  function FeeForGas(pricing: Pricing, maxFeePerGas: nat, gas: GasLimits): nat {
    var maxCost := TotalGas(gas) * maxFeePerGas;
    var requiredFee := maxCost * (10_000 + pricing.gasBufferBps) / 10_000 + pricing.fixedMarkup;
    requiredFee * 101 / 100
  }

  function MakeOp(caps: Caps, feeAmount: int, gas: GasLimits): SponsoredOp {
    SponsoredOp(gas, caps.maxFeePerGas, caps.maxPriorityFeePerGas, PAYMASTER_VERIFICATION_GAS, PAYMASTER_POST_OP_GAS,
        feeAmount)
  }

  /** The most the EntryPoint can charge for the operation: every gas limit it carries, at its fee cap. */
  function MaxCost(op: SponsoredOp): int {
    (op.gas.verifGas + op.gas.callGas + op.paymasterVerificationGasLimit + op.paymasterPostOpGasLimit +
        op.gas.preVerifGas)
    * op.maxFeePerGas
  }

  /** The paymaster contract's price for a maximum cost. */
  function RequiredFee(pricing: Pricing, maxCost: int): int {
    maxCost * (10_000 + pricing.gasBufferBps) / 10_000 + pricing.fixedMarkup
  }

  /** The paymaster's two checks on the promised fee. */
  predicate PaymasterAccepts(pricing: Pricing, op: SponsoredOp, minOut: int) {
    RequiredFee(pricing, MaxCost(op)) <= op.feeAmount <= minOut
  }

  lemma {:induction false} SameCost(caps: Caps, fee: int, gas: GasLimits)
    ensures MaxCost(MakeOp(caps, fee, gas)) == TotalGas(gas) * caps.maxFeePerGas
  {
  }

  lemma {:induction false} BufferedCost(cost: nat, bps: nat)
    ensures cost <= cost * (10_000 + bps) / 10_000
  {
    assert cost * (10_000 + bps) == cost * 10_000 + cost * bps;
    assert cost * bps >= 0;
  }

  /** An operation priced for its own gas limits pays the paymaster's price, at most one percent more, and covers its
      cost. */
  lemma {:induction false} FeeMeetsPrice(pricing: Pricing, caps: Caps, gas: GasLimits)
    requires caps.maxFeePerGas >= 0
    ensures
      var op := MakeOp(caps, FeeForGas(pricing, caps.maxFeePerGas, gas), gas);
      && RequiredFee(pricing, MaxCost(op)) <= op.feeAmount
      && 100 * op.feeAmount <= 101 * RequiredFee(pricing, MaxCost(op))
      && MaxCost(op) + pricing.fixedMarkup <= op.feeAmount
  {
    var fee := FeeForGas(pricing, caps.maxFeePerGas, gas);
    var cost := TotalGas(gas) * caps.maxFeePerGas;
    SameCost(caps, fee, gas);
    NonNegative(TotalGas(gas), caps.maxFeePerGas);
    BufferedCost(cost, pricing.gasBufferBps);
  }

  lemma {:induction false} NonNegative(a: nat, b: nat)
    ensures 0 <= a * b
  {
  }

  // ---- Estimation with failover

  /** The first candidate's answer that is not an error. */
  function FirstAnswer<A>(answers: seq<Option<A>>): Option<A> {
    if answers == [] then None else if answers[0].Some? then answers[0] else FirstAnswer(answers[1..])
  }

  lemma {:induction false} FirstAnswerSkips<A>(answers: seq<Option<A>>, i: nat)
    requires i <= |answers|
    requires forall j :: 0 <= j < i ==> answers[j].None?
    ensures FirstAnswer(answers) == FirstAnswer(answers[i..])
    decreases i
  {
    if i == 0 {
      assert answers[0..] == answers;
    } else {
      FirstAnswerSkips(answers[1..], i - 1);
      assert answers[1..][i - 1..] == answers[i..];
    }
  }

  /** Asks the candidates one after the other; `answers` is what each would reply. */
  method EstimateWithFailover(candidates: seq<Bundler>, answers: seq<Option<GasLimits>>)
    returns (r: Option<(GasLimits, string)>, ghost asked: nat)
    requires |answers| == |candidates|
    ensures r.Some? <==> FirstAnswer(answers).Some?
    ensures r.Some? ==> asked < |candidates| && answers[asked] == Some(r.value.0) == FirstAnswer(answers)
    ensures r.Some? ==> r.value.1 == candidates[asked].id
    ensures asked <= |candidates| && forall j :: 0 <= j < asked ==> answers[j].None?
    ensures r.None? ==> asked == |candidates|
  {
    asked := 0;
    for i := 0 to |candidates|
      invariant asked == i && forall j :: 0 <= j < i ==> answers[j].None?
    {
      FirstAnswerSkips(answers, i);
      if answers[i].Some? {
        return Some((answers[i].value, candidates[i].id)), i;
      }
      asked := asked + 1;
    }
    FirstAnswerSkips(answers, |answers|);
    r := None;
  }

  // ---- The whole preparation

  datatype SwapError = NoBundlers | AllEstimatesFailed | SwapTooSmall

  /** The gas limits the submitted operation carries: the second pass refines the first when any bundler answers it. */
  function FinalGas(first: seq<Option<GasLimits>>, second: seq<Option<GasLimits>>): Option<GasLimits> {
    if FirstAnswer(first).None? then None
    else if FirstAnswer(second).Some? then FirstAnswer(second)
    else FirstAnswer(first)
  }

  /**
   * Everything between reading the quote and asking for a signature. `first` and `second` are what the
   * candidates answer in the two estimation passes.
   */
  method PrepareSwap(bundlers: seq<Bundler>, selectedId: string, pricing: Pricing,
      suggestedMax: nat, suggestedPriority: nat, minOut: int, first: seq<Option<GasLimits>>,
          second: seq<Option<GasLimits>>)
    returns (r: Result<SponsoredOp, SwapError>)
    requires |first| == |second| == |Candidates(bundlers, selectedId)|
    ensures r == Err(NoBundlers) <==> Candidates(bundlers, selectedId) == []
    ensures r == Err(AllEstimatesFailed) <==> Candidates(bundlers, selectedId) != [] && FinalGas(first, second).None?
    ensures r == Err(SwapTooSmall) <==>
      && FinalGas(first, second).Some?
      && minOut < FeeForGas(pricing, Max(0, ChooseCaps(Candidates(bundlers, selectedId), suggestedMax,
          suggestedPriority).maxFeePerGas),
                            FinalGas(first, second).value)
    ensures r.Ok? ==> Some(r.value.gas) == FinalGas(first, second)
    ensures r.Ok? ==>
        r.value.maxFeePerGas >= 0 &&
        r.value.feeAmount == FeeForGas(pricing, r.value.maxFeePerGas, r.value.gas)
    ensures r.Ok? ==> PaymasterAccepts(pricing, r.value, minOut)
    ensures r.Ok? ==> 100 * r.value.feeAmount <= 101 * RequiredFee(pricing, MaxCost(r.value))
    ensures r.Ok? ==> r.value.maxFeePerGas >= suggestedMax && r.value.maxPriorityFeePerGas >= suggestedPriority
    ensures r.Ok? ==> FloorsPassed(Candidates(bundlers, selectedId),
        Caps(r.value.maxFeePerGas, r.value.maxPriorityFeePerGas))
  {
    var candidates := Candidates(bundlers, selectedId);
    if |candidates| == 0 {
      return Err(NoBundlers);
    }
    var caps := ChooseCaps(candidates, suggestedMax, suggestedPriority);
    forall b | b in candidates && (b.status.Up? || forall c :: c in candidates ==> !c.status.Up?)
      ensures PassesFloors(b.policy, caps)
    {
      CapsPass(candidates, suggestedMax, suggestedPriority, b);
    }
    var guess := MakeOp(caps, FeeForGas(pricing, caps.maxFeePerGas, GAS_GUESS), GAS_GUESS);
    FeeMeetsPrice(pricing, caps, GAS_GUESS);
    assert RequiredFee(pricing, MaxCost(guess)) <= guess.feeAmount;
    var g1, _ := EstimateWithFailover(candidates, first);
    if g1.None? {
      return Err(AllEstimatesFailed);
    }
    var gas := g1.value.0;
    var feeAmount := FeeForGas(pricing, caps.maxFeePerGas, gas);
    FeeMeetsPrice(pricing, caps, gas);
    var g2, _ := EstimateWithFailover(candidates, second);
    if g2.Some? {
      gas := g2.value.0;
      feeAmount := FeeForGas(pricing, caps.maxFeePerGas, gas);
      FeeMeetsPrice(pricing, caps, gas);
    }
    if minOut < feeAmount {
      return Err(SwapTooSmall);
    }
    return Ok(MakeOp(caps, feeAmount, gas));
  }

  /** Sends to one candidate after the other until one accepts; `accepts` is what each would reply. */
  method Submit(candidates: seq<Bundler>, accepts: seq<bool>) returns (acceptedBy: Option<string>)
    requires |accepts| == |candidates|
    ensures acceptedBy.None? <==> forall i :: 0 <= i < |accepts| ==> !accepts[i]
    ensures acceptedBy.Some? ==>
      exists i :: 0 <= i < |accepts| && accepts[i] && candidates[i].id == acceptedBy.value && forall j ::
          0 <= j < i ==> !accepts[j]
  {
    for i := 0 to |candidates|
      invariant forall j :: 0 <= j < i ==> !accepts[j]
    {
      if accepts[i] {
        return Some(candidates[i].id);
      }
    }
    acceptedBy := None;
  }
}
