/** The web client's own packer, and its agreement with the bundler's. */
module WebUserOp {
  import opened Wrappers
  import opened HexData
  import opened Packing

  function PackPairOf(high: nat, low: nat): Result<Hex, HexError> {
    var h :- ZeroPad(Canonical(high), 16);
    var l :- ZeroPad(Canonical(low), 16);
    Ok(h + l)
  }

  /** Packs an operation for hashing and gas estimation; amounts pass through numbers first. */
  function BuildPacked(u: UserOp): Packs {
    var initCode :- InitCode(u.factory, u.factoryData);
    var verificationGasLimit :- Number(u.verificationGasLimit);
    var callGasLimit :- Number(u.callGasLimit);
    var accountGasLimits :- PackPairOf(verificationGasLimit, callGasLimit);
    var maxPriorityFeePerGas :- Number(u.maxPriorityFeePerGas);
    var maxFeePerGas :- Number(u.maxFeePerGas);
    var gasFees :- PackPairOf(maxPriorityFeePerGas, maxFeePerGas);
    var paymasterAndData :- PaymasterAndData(
      u.paymaster, u.paymasterVerificationGasLimit, u.paymasterPostOpGasLimit, u.paymasterData);
    var sender :- Address(u.sender);
    var nonce :- Number(u.nonce);
    var preVerificationGas :- Number(u.preVerificationGas);
    Ok(PackedOp(sender, Canonical(nonce), initCode, u.callData, accountGasLimits, Canonical(preVerificationGas),
                gasFees, paymasterAndData, u.signature))
  }

  predicate HasAmounts(u: UserOp) {
    u.verificationGasLimit != [] && u.callGasLimit != [] && u.maxPriorityFeePerGas != [] && u.maxFeePerGas != []
  }

  lemma {:induction false} PairsAgree(high: Hex, low: Hex)
    requires high != [] && low != [] && FitsUint128(high) && FitsUint128(low)
    ensures PackPairOf(Value(high), Value(low)) == PackPair(high, low)
  {
    PadsAgree(high, 16);
    PadsAgree(low, 16);
  }

  /** An operation both packers accept packs to the same nine fields. */
  lemma {:induction false} PackersAgree(u: UserOp)
    requires Pack(u).Ok? && BuildPacked(u).Ok?
    ensures BuildPacked(u) == Pack(u)
  {
    PackAccepts(u);
    PairsAgree(u.verificationGasLimit, u.callGasLimit);
    PairsAgree(u.maxPriorityFeePerGas, u.maxFeePerGas);
  }

  /** Of what the bundler accepts, the client refuses exactly operations with an amount that has no digits. */
  lemma {:induction false} ClientAccepts(u: UserOp)
    requires Pack(u).Ok?
    ensures BuildPacked(u).Ok? <==> HasAmounts(u)
  {
    PackAccepts(u);
    if HasAmounts(u) {
      PairsAgree(u.verificationGasLimit, u.callGasLimit);
      PairsAgree(u.maxPriorityFeePerGas, u.maxFeePerGas);
    }
  }

  predicate PairedFactory(u: UserOp) {
    && (u.factory.Some? <==> u.factoryData.Some?)
    && (u.factory.Some? ==> |u.factory.value| == 40)
    && (u.paymaster.Some? ==> |u.paymaster.value| == 40)
  }

  /** Of what the client packs, the bundler refuses exactly operations with an unpaired factory, an address
      that is not 20 bytes, or an amount written with more than 32 digits. */
  lemma {:induction false} BundlerAccepts(u: UserOp)
    requires BuildPacked(u).Ok?
    ensures Pack(u).Ok? <==>
      && PairedFactory(u)
      && FitsUint128(u.verificationGasLimit) && FitsUint128(u.callGasLimit)
      && FitsUint128(u.maxPriorityFeePerGas) && FitsUint128(u.maxFeePerGas)
  {
    PackAccepts(u);
  }

  /** The user signs the hash of the client's packing with a placeholder signature; for any hash that ignores
      the signature field, it is the hash of what the bundler packs after the signature is filled in. */
  lemma {:induction false} SignedHashMatches<H>(u: UserOp, signature: Hex, hash: PackedOp -> H)
    requires forall p: PackedOp, s: Hex :: hash(p.(signature := s)) == hash(p)
    requires BuildPacked(u).Ok? && Pack(u.(signature := signature)).Ok?
    ensures hash(Pack(u.(signature := signature)).value) == hash(BuildPacked(u).value)
  {
    var signed := u.(signature := signature);
    PackAccepts(u);
    PackAccepts(signed);
    PackersAgree(u);
    assert Pack(signed).value == Pack(u).value.(signature := signature);
  }
}
