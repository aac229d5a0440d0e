/** Packed and unpacked ERC-4337 v0.7 user operations, and the validation data word. */
module Packing {
  import opened Wrappers
  import opened Sequences
  import opened HexData

  /** The JSON-RPC shape. */
  datatype UserOp = UserOp(
    sender: Hex, nonce: Hex, factory: Option<Hex>, factoryData: Option<Hex>, callData: Hex,
    callGasLimit: Hex, verificationGasLimit: Hex, preVerificationGas: Hex,
    maxFeePerGas: Hex, maxPriorityFeePerGas: Hex,
    paymaster: Option<Hex>, paymasterVerificationGasLimit: Option<Hex>, paymasterPostOpGasLimit: Option<Hex>,
    paymasterData: Option<Hex>, signature: Hex)

  /** The EntryPoint shape. */
  datatype PackedOp = PackedOp(
    sender: Hex, nonce: Hex, initCode: Hex, callData: Hex, accountGasLimits: Hex, preVerificationGas: Hex,
    gasFees: Hex, paymasterAndData: Hex, signature: Hex)

  type Packs = Result<PackedOp, HexError>

  const ADDRESS_ZERO: Hex := Zeros(40)

  function PackPair(high: Hex, low: Hex): Result<Hex, HexError> {
    var h :- ZeroPad(high, 16);
    var l :- ZeroPad(low, 16);
    Ok(h + l)
  }

  function OptionalAddress(a: Option<Hex>): Result<(), HexError> {
    match a
    case None => Ok(())
    case Some(h) => var _ :- Address(h); Ok(())
  }

  function InitCode(factory: Option<Hex>, factoryData: Option<Hex>): Result<Hex, HexError> {
    match factory
    case None => Ok([])
    case Some(f) =>
      var head :- Bytes(f);
      var data :- Bytes(factoryData.GetOr([]));
      Ok(head + data)
  }

  function PaymasterAndData(paymaster: Option<Hex>, verificationGas: Option<Hex>, postOpGas: Option<Hex>,
      data: Option<Hex>)
    : Result<Hex, HexError>
  {
    if paymaster.Some? && paymaster.value != ADDRESS_ZERO then
      var p :- Bytes(paymaster.value);
      var v :- ZeroPad(verificationGas.GetOr([0]), 16);
      var o :- ZeroPad(postOpGas.GetOr([0]), 16);
      var d :- Bytes(data.GetOr([]));
      Ok(p + v + o + d)
    else Ok([])
  }

  /** The bundler's packer. */
  function Pack(u: UserOp): Packs {
    var sender :- Address(u.sender);
    if u.factory.Some? != u.factoryData.Some? then Err(FactoryMismatch) else
    var _ :- OptionalAddress(u.factory);
    var _ :- OptionalAddress(u.paymaster);
    var initCode :- InitCode(u.factory, u.factoryData);
    var accountGasLimits :- PackPair(u.verificationGasLimit, u.callGasLimit);
    var gasFees :- PackPair(u.maxPriorityFeePerGas, u.maxFeePerGas);
    var paymasterAndData :- PaymasterAndData(
      u.paymaster, u.paymasterVerificationGasLimit, u.paymasterPostOpGasLimit, u.paymasterData);
    var nonce :- Number(u.nonce);
    var preVerificationGas :- Number(u.preVerificationGas);
    Ok(PackedOp(sender, Canonical(nonce), initCode, u.callData, accountGasLimits, Canonical(preVerificationGas),
                gasFees, paymasterAndData, u.signature))
  }

  /** `hexDataSlice` and `slice`, which stop at the end of the data. */
  function Part(h: Hex, from: nat, to: nat): Hex {
    var end := Min(to, |h|);
    if from < end then h[from..end] else []
  }

  function Reprint(h: Hex): Result<Hex, HexError> {
    var n :- Number(h);
    Ok(Canonical(n))
  }

  function Unpack(p: PackedOp): Result<UserOp, HexError> {
    var limits :- Bytes(p.accountGasLimits);
    var fees :- Bytes(p.gasFees);
    var factory := |p.initCode| >= 40;
    var initCode :- if factory then Bytes(p.initCode) else Ok([]);
    var paymaster := |p.paymasterAndData| >= 104;
    var pd :- if paymaster then Bytes(p.paymasterAndData) else Ok([]);
    var sender :- Address(p.sender);
    var nonce :- Reprint(p.nonce);
    var callGasLimit :- Reprint(Part(limits, 32, 64));
    var verificationGasLimit :- Reprint(Part(limits, 0, 32));
    var preVerificationGas :- Reprint(p.preVerificationGas);
    var maxFeePerGas :- Reprint(Part(fees, 32, 64));
    var maxPriorityFeePerGas :- Reprint(Part(fees, 0, 32));
    Ok(UserOp(
         sender, nonce,
         if factory then Some(Part(initCode, 0, 40)) else None,
         if factory then Some(Part(initCode, 40, |initCode|)) else None,
         p.callData, callGasLimit, verificationGasLimit, preVerificationGas, maxFeePerGas, maxPriorityFeePerGas,
         if paymaster then Some(Part(pd, 0, 40)) else None,
         if paymaster then Some(Part(pd, 40, 72)) else None,
         if paymaster then Some(Part(pd, 72, 104)) else None,
         if paymaster then Some(Part(pd, 104, |pd|)) else None,
         p.signature))
  }

  // ------------------------------------------------------------------ what packing accepts

  predicate FitsUint128(h: Hex) {
    |h| <= 32
  }

  predicate HasPaymaster(u: UserOp) {
    u.paymaster.Some? && u.paymaster.value != ADDRESS_ZERO
  }

  predicate Packable(u: UserOp) {
    && |u.sender| == 40 && u.nonce != [] && u.preVerificationGas != []
    && (u.factory.Some? <==> u.factoryData.Some?)
    && (u.factory.Some? ==> |u.factory.value| == 40 && IsBytes(u.factoryData.value))
    && (u.paymaster.Some? ==> |u.paymaster.value| == 40)
    && FitsUint128(u.verificationGasLimit) && FitsUint128(u.callGasLimit)
    && FitsUint128(u.maxPriorityFeePerGas) && FitsUint128(u.maxFeePerGas)
    && (HasPaymaster(u) ==>
          && FitsUint128(u.paymasterVerificationGasLimit.GetOr([0]))
          && FitsUint128(u.paymasterPostOpGasLimit.GetOr([0]))
          && IsBytes(u.paymasterData.GetOr([])))
  }

  /** Packing accepts exactly these operations; a gas or fee field of more than 16 bytes is refused, never cut. */
  lemma {:induction false} PackAccepts(u: UserOp)
    ensures Pack(u).Ok? <==> Packable(u)
  {
  }

  // ------------------------------------------------------------------ unpacking what was packed

  function Padded(h: Hex): Hex {
    if |h| <= 32 then Zeros(32 - |h|) + h else h
  }

  /** The operation with printed numbers, full-width paymaster limits, and no trace of a zero paymaster. */
  function Normal(u: UserOp): UserOp {
    u.(nonce := Canonical(Value(u.nonce)),
       callGasLimit := Canonical(Value(u.callGasLimit)),
       verificationGasLimit := Canonical(Value(u.verificationGasLimit)),
       preVerificationGas := Canonical(Value(u.preVerificationGas)),
       maxFeePerGas := Canonical(Value(u.maxFeePerGas)),
       maxPriorityFeePerGas := Canonical(Value(u.maxPriorityFeePerGas)),
       paymaster := if HasPaymaster(u) then u.paymaster else None,
       paymasterVerificationGasLimit :=
         if HasPaymaster(u) then Some(Padded(u.paymasterVerificationGasLimit.GetOr([0]))) else None,
       paymasterPostOpGasLimit :=
         if HasPaymaster(u) then Some(Padded(u.paymasterPostOpGasLimit.GetOr([0]))) else None,
       paymasterData := if HasPaymaster(u) then Some(u.paymasterData.GetOr([])) else None)
  }

  lemma {:induction false} PartsOfPair(h: Hex, l: Hex)
    requires |h| == 32 && |l| == 32
    ensures Part(h + l, 0, 32) == h && Part(h + l, 32, 64) == l
  {
  }

  lemma {:induction false} ReprintPadded(h: Hex)
    requires FitsUint128(h)
    ensures Reprint(Padded(h)) == Ok(Canonical(Value(h)))
  {
    ValueZeros(32 - |h|, h);
    assert Padded(h) != [];
  }

  lemma {:induction false} PairParts(high: Hex, low: Hex)
    requires FitsUint128(high) && FitsUint128(low)
    ensures PackPair(high, low).Ok? && |PackPair(high, low).value| == 64
    ensures Reprint(Part(PackPair(high, low).value, 0, 32)) == Ok(Canonical(Value(high)))
    ensures Reprint(Part(PackPair(high, low).value, 32, 64)) == Ok(Canonical(Value(low)))
  {
    assert PackPair(high, low) == Ok(Padded(high) + Padded(low));
    PartsOfPair(Padded(high), Padded(low));
    ReprintPadded(high);
    ReprintPadded(low);
  }

  lemma {:induction false} FourParts(p: Hex, v: Hex, o: Hex, d: Hex)
    requires |p| == 40 && |v| == 32 && |o| == 32
    ensures
      var all := p + v + o + d;
      Part(all, 0, 40) == p && Part(all, 40, 72) == v && Part(all, 72, 104) == o && Part(all, 104, |all|) == d
  {
  }

  lemma {:induction false} FourPartsBytes(p: Hex, v: Hex, o: Hex, d: Hex)
    requires |p| == 40 && |v| == 32 && |o| == 32 && IsBytes(d)
    ensures IsBytes(p + v + o + d) && |p + v + o + d| >= 104
  {
  }

  lemma {:induction false} PackShape(u: UserOp, p: PackedOp)
    requires Pack(u) == Ok(p)
    ensures p.sender == u.sender && |u.sender| == 40 && p.callData == u.callData && p.signature == u.signature
    ensures p.nonce == Canonical(Value(u.nonce)) && p.preVerificationGas == Canonical(Value(u.preVerificationGas))
    ensures InitCode(u.factory, u.factoryData) == Ok(p.initCode)
    ensures PackPair(u.verificationGasLimit, u.callGasLimit) == Ok(p.accountGasLimits)
    ensures PackPair(u.maxPriorityFeePerGas, u.maxFeePerGas) == Ok(p.gasFees)
    ensures PaymasterAndData(u.paymaster, u.paymasterVerificationGasLimit, u.paymasterPostOpGasLimit, u.paymasterData)
         == Ok(p.paymasterAndData)
  {
  }

  lemma {:induction false} UnpackAmounts(u: UserOp, p: PackedOp)
    requires Packable(u) && Pack(u) == Ok(p)
    ensures IsBytes(p.accountGasLimits) && IsBytes(p.gasFees)
    ensures Reprint(p.nonce) == Ok(Canonical(Value(u.nonce)))
    ensures Reprint(p.preVerificationGas) == Ok(Canonical(Value(u.preVerificationGas)))
    ensures Reprint(Part(p.accountGasLimits, 0, 32)) == Ok(Canonical(Value(u.verificationGasLimit)))
    ensures Reprint(Part(p.accountGasLimits, 32, 64)) == Ok(Canonical(Value(u.callGasLimit)))
    ensures Reprint(Part(p.gasFees, 0, 32)) == Ok(Canonical(Value(u.maxPriorityFeePerGas)))
    ensures Reprint(Part(p.gasFees, 32, 64)) == Ok(Canonical(Value(u.maxFeePerGas)))
  {
    PackShape(u, p);
    PairParts(u.verificationGasLimit, u.callGasLimit);
    PairParts(u.maxPriorityFeePerGas, u.maxFeePerGas);
    ReprintCanonical(u.nonce);
    ReprintCanonical(u.preVerificationGas);
  }

  /** Unpacking a packed operation returns its normal form. */
  lemma {:induction false} UnpackPack(u: UserOp, p: PackedOp)
    requires Pack(u) == Ok(p)
    ensures Unpack(p) == Ok(Normal(u))
  {
    PackAccepts(u);
    PackShape(u, p);
    UnpackAmounts(u, p);
    assert u.factory.Some? ==> |p.initCode| >= 40 && IsBytes(p.initCode)
                               && Some(Part(p.initCode, 0, 40)) == u.factory
                               && Some(Part(p.initCode, 40, |p.initCode|)) == u.factoryData by {
      if u.factory.Some? {
        InitCodeParts(u.factory.value, u.factoryData.value);
      }
    }
    UnpackPaymaster(u, p);
  }

  lemma {:induction false} UnpackPaymaster(u: UserOp, p: PackedOp)
    requires Packable(u) && Pack(u) == Ok(p)
    ensures
      var h := p.paymasterAndData;
      if HasPaymaster(u) then
        && |h| >= 104 && IsBytes(h) && Some(Part(h, 0, 40)) == u.paymaster
        && Part(h, 40, 72) == Padded(u.paymasterVerificationGasLimit.GetOr([0]))
        && Part(h, 72, 104) == Padded(u.paymasterPostOpGasLimit.GetOr([0]))
        && Part(h, 104, |h|) == u.paymasterData.GetOr([])
      else h == []
  {
    PackShape(u, p);
    if HasPaymaster(u) {
      PaymasterParts(u.paymaster.value, u.paymasterVerificationGasLimit, u.paymasterPostOpGasLimit, u.paymasterData);
    }
  }

  lemma {:induction false} ReprintCanonical(h: Hex)
    ensures Reprint(Canonical(Value(h))) == Ok(Canonical(Value(h)))
  {
    ValueCanonical(Value(h));
  }

  lemma {:induction false} InitCodeParts(f: Hex, d: Hex)
    requires |f| == 40 && IsBytes(d)
    ensures
      var c := InitCode(Some(f), Some(d));
      && c.Ok? && IsBytes(c.value) && |c.value| >= 40
      && Part(c.value, 0, 40) == f && Part(c.value, 40, |c.value|) == d
  {
    assert Part(f + d, 0, 40) == f && Part(f + d, 40, |f + d|) == d;
  }

  lemma {:induction false} PaymasterJoined(p: Hex, v: Option<Hex>, o: Option<Hex>, d: Option<Hex>)
    requires |p| == 40 && p != ADDRESS_ZERO && FitsUint128(v.GetOr([0])) && FitsUint128(o.GetOr([0])) &&
        IsBytes(d.GetOr([]))
    ensures PaymasterAndData(Some(p), v, o, d) == Ok(p + Padded(v.GetOr([0])) + Padded(o.GetOr([0])) + d.GetOr([]))
  {
  }

  lemma {:induction false} PaymasterParts(p: Hex, v: Option<Hex>, o: Option<Hex>, d: Option<Hex>)
    requires |p| == 40 && p != ADDRESS_ZERO && FitsUint128(v.GetOr([0])) && FitsUint128(o.GetOr([0])) &&
        IsBytes(d.GetOr([]))
    ensures
      var r := PaymasterAndData(Some(p), v, o, d);
      && r.Ok? && IsBytes(r.value) && |r.value| >= 104 && Part(r.value, 0, 40) == p
      && Part(r.value, 40, 72) == Padded(v.GetOr([0])) && Part(r.value, 72, 104) == Padded(o.GetOr([0]))
      && Part(r.value, 104, |r.value|) == d.GetOr([])
  {
    PaymasterJoined(p, v, o, d);
    FourParts(p, Padded(v.GetOr([0])), Padded(o.GetOr([0])), d.GetOr([]));
    FourPartsBytes(p, Padded(v.GetOr([0])), Padded(o.GetOr([0])), d.GetOr([]));
  }

  lemma {:induction false} PrintKeeps(h: Hex)
    ensures Value(Canonical(Value(h))) == Value(h)
  {
    ValueCanonical(Value(h));
  }

  lemma {:induction false} PadKeeps(h: Hex)
    ensures Value(Padded(h)) == Value(h)
  {
    if |h| <= 32 {
      ValueZeros(32 - |h|, h);
    }
  }

  /** The normal form keeps every gas and fee amount. */
  lemma {:induction false} NormalKeepsAmounts(u: UserOp)
    requires Packable(u)
    ensures
      var n := Normal(u);
      && Value(n.callGasLimit) == Value(u.callGasLimit)
      && Value(n.verificationGasLimit) == Value(u.verificationGasLimit)
      && Value(n.preVerificationGas) == Value(u.preVerificationGas)
      && Value(n.maxFeePerGas) == Value(u.maxFeePerGas)
      && Value(n.maxPriorityFeePerGas) == Value(u.maxPriorityFeePerGas)
      && Value(n.nonce) == Value(u.nonce)
      && (HasPaymaster(u) ==>
            && Value(n.paymasterVerificationGasLimit.value) == Value(u.paymasterVerificationGasLimit.GetOr([0]))
            && Value(n.paymasterPostOpGasLimit.value) == Value(u.paymasterPostOpGasLimit.GetOr([0])))
  {
    PrintKeeps(u.callGasLimit);
    PrintKeeps(u.verificationGasLimit);
    PrintKeeps(u.preVerificationGas);
    PrintKeeps(u.maxFeePerGas);
    PrintKeeps(u.maxPriorityFeePerGas);
    PrintKeeps(u.nonce);
    PadKeeps(u.paymasterVerificationGasLimit.GetOr([0]));
    PadKeeps(u.paymasterPostOpGasLimit.GetOr([0]));
  }

  // ------------------------------------------------------------------ packing what was unpacked

  predicate Printed(h: Hex) {
    h == Canonical(Value(h))
  }

  predicate WellFormed(p: PackedOp) {
    && |p.sender| == 40 && Printed(p.nonce) && Printed(p.preVerificationGas)
    && |p.accountGasLimits| == 64 && |p.gasFees| == 64
    && (p.initCode == [] || (|p.initCode| >= 40 && IsBytes(p.initCode)))
    && (p.paymasterAndData == [] ||
        (|p.paymasterAndData| >= 104 && IsBytes(p.paymasterAndData) && p.paymasterAndData[..40] != ADDRESS_ZERO))
  }

  lemma {:induction false} RepadReprint(h: Hex)
    requires |h| == 32
    ensures Reprint(h).Ok? && ZeroPad(Reprint(h).value, 16) == Ok(h)
  {
    PadCanonical(h, 16);
  }

  lemma {:induction false} PairRejoined(h: Hex)
    requires |h| == 64
    ensures Reprint(Part(h, 0, 32)).Ok? && Reprint(Part(h, 32, 64)).Ok?
    ensures PackPair(Reprint(Part(h, 0, 32)).value, Reprint(Part(h, 32, 64)).value) == Ok(h)
  {
    var a, b := Part(h, 0, 32), Part(h, 32, 64);
    RepadReprint(a);
    RepadReprint(b);
    assert a + b == h;
  }

  lemma {:induction false} PaymasterRejoined(h: Hex)
    requires |h| >= 104
    ensures Part(h, 0, 40) + Part(h, 40, 72) + Part(h, 72, 104) + Part(h, 104, |h|) == h
  {
  }

  lemma {:induction false} PackedAmountsLength(u: UserOp)
    requires Pack(u).Ok?
    ensures |Pack(u).value.accountGasLimits| == 64 && |Pack(u).value.gasFees| == 64
    ensures Printed(Pack(u).value.nonce) && Printed(Pack(u).value.preVerificationGas)
  {
    ValueCanonical(Value(u.nonce));
    ValueCanonical(Value(u.preVerificationGas));
  }

  lemma {:induction false} InitCodeRejoined(c: Hex)
    requires |c| >= 40 && IsBytes(c)
    ensures InitCode(Some(Part(c, 0, 40)), Some(Part(c, 40, |c|))) == Ok(c)
  {
    assert Part(c, 0, 40) + Part(c, 40, |c|) == c;
  }

  lemma {:induction false} FullWidth(h: Hex)
    requires |h| == 32
    ensures ZeroPad(h, 16) == Ok(h)
  {
    assert Zeros(0) + h == h;
  }

  lemma {:induction false} PaymasterDataRejoined(h: Hex)
    requires |h| >= 104 && IsBytes(h) && h[..40] != ADDRESS_ZERO
    ensures PaymasterAndData(Some(Part(h, 0, 40)), Some(Part(h, 40, 72)), Some(Part(h, 72, 104)),
        Some(Part(h, 104, |h|))) == Ok(h)
  {
    var p, v, o, d := Part(h, 0, 40), Part(h, 40, 72), Part(h, 72, 104), Part(h, 104, |h|);
    assert p == h[..40];
    FullWidth(v);
    FullWidth(o);
    PaymasterRejoined(h);
    assert p + v + o + d == h;
  }

  lemma {:induction false} UnpackWellFormed(p: PackedOp)
    requires WellFormed(p)
    ensures Unpack(p).Ok?
    ensures
      var u := Unpack(p).value;
      && PackPair(u.verificationGasLimit, u.callGasLimit) == Ok(p.accountGasLimits)
      && PackPair(u.maxPriorityFeePerGas, u.maxFeePerGas) == Ok(p.gasFees)
      && Reprint(u.nonce) == Ok(p.nonce) && Reprint(u.preVerificationGas) == Ok(p.preVerificationGas)
  {
    PairRejoined(p.accountGasLimits);
    PairRejoined(p.gasFees);
    ReprintCanonical(p.nonce);
    ReprintCanonical(p.preVerificationGas);
  }

  /** Packing what was unpacked returns the packed operation exactly when its factory and paymaster parts are
      absent or complete, its paymaster is not zero, and its amounts have their packed width. */
  lemma {:induction false} PackUnpack(p: PackedOp)
    ensures (Unpack(p).Ok? && Pack(Unpack(p).value) == Ok(p)) <==> WellFormed(p)
  {
    if WellFormed(p) {
      UnpackWellFormed(p);
      if p.initCode != [] {
        InitCodeRejoined(p.initCode);
      }
      if p.paymasterAndData != [] {
        PaymasterDataRejoined(p.paymasterAndData);
      }
    } else if Unpack(p).Ok? && Pack(Unpack(p).value) == Ok(p) {
      PackedAmountsLength(Unpack(p).value);
    }
  }

  // ------------------------------------------------------------------ validation data

  const P48: nat := 0x1_0000_0000_0000
  const P160: nat := 0x1_0000_0000_0000_0000_0000_0000_0000_0000_0000_0000
  const P208: nat := P160 * P48

  const MAX_SAFE_INTEGER: nat := 9007199254740991

  datatype Window = Window(validAfter: nat, validUntil: nat)

  function ParseValidationData(word: nat): Window {
    var until := word / P160 % P48;
    Window(word / P208 % P48, if until == 0 then MAX_SAFE_INTEGER else until)
  }

  /** The word the paymaster packs, aggregator lowest, is read back; a zero end means no end. */
  lemma {:induction false} ParseComposed(aggregator: nat, until: nat, after: nat)
    requires aggregator < P160 && until < P48 && after < P48
    ensures ParseValidationData(aggregator + until * P160 + after * P208)
         == Window(after, if until == 0 then MAX_SAFE_INTEGER else until)
  {
    var word := aggregator + until * P160 + after * P208;
    assert word == aggregator + (until + after * P48) * P160;
    assert word / P160 == until + after * P48;
    assert word == (aggregator + until * P160) + after * P208;
    assert aggregator + until * P160 < P208;
    assert word / P208 == after;
  }
}
