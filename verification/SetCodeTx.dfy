/** The bundler's EIP-7702 set-code transaction: what is signed and what is sent. */
module SetCodeTx {
  import opened Wrappers
  import opened HexData
  import opened Rlp

  /** An authorization as a client posts it: every field is hex text. */
  datatype Authorization = Authorization(chainId: Hex, address: Hex, nonce: Hex, v: Hex, r: Hex, s: Hex)

  /** The same with its numbers read. */
  datatype ReadAuthorization = ReadAuthorization(chainId: nat, address: Hex, nonce: nat, v: nat, r: Hex, s: Hex)

  datatype Tx = Tx(
    chainId: nat, nonce: nat, maxPriorityFeePerGas: nat, maxFeePerGas: nat, gasLimit: nat,
    to: Bytes, value: nat, data: Bytes, accessList: seq<Item>, authorizationList: seq<Authorization>)

  datatype Signature = Signature(v: nat, r: Bytes, s: Bytes)

  const SET_CODE_TYPE: Byte := 0x04

  function ByteOf(high: int, low: int): int {
    16 * high + low
  }

  /** The bytes written as an even number of hex digits. */
  function ToBytes(h: Hex): (b: Bytes)
    requires HexData.IsBytes(h)
    ensures 2 * |b| == |h|
    ensures forall i :: 0 <= i < |b| ==> b[i] == ByteOf(h[2 * i], h[2 * i + 1])
  {
    seq(|h| / 2, i requires 0 <= i < |h| / 2 => ByteOf(h[2 * i], h[2 * i + 1]))
  }

  /** A number field printed as hex. */
  function Quantity(n: nat): Item {
    Str(ToBytes(Canonical(n)))
  }

  /** A number field that the code means to leave empty for zero: it compares with the one-digit form. */
  function OptionalQuantity(n: nat): Item {
    if Canonical(n) == [0] then Str([]) else Str(ToBytes(Canonical(n)))
  }

  /** The numbers of one authorization; nothing else is looked at yet. */
  function ReadNumbers(a: Authorization): Result<ReadAuthorization, HexError> {
    var chainId :- Number(a.chainId);
    var nonce :- Number(a.nonce);
    var v :- Number(a.v);
    Ok(ReadAuthorization(chainId, a.address, nonce, v, a.r, a.s))
  }

  function ReadAll(auths: seq<Authorization>): Result<seq<ReadAuthorization>, HexError> {
    if auths == [] then Ok([])
    else
      var first :- ReadNumbers(auths[0]);
      var rest :- ReadAll(auths[1..]);
      Ok([first] + rest)
  }

  predicate WholeRead(a: ReadAuthorization) {
    IsBytes(a.address) && IsBytes(a.r) && IsBytes(a.s)
  }

  function AuthFields(a: ReadAuthorization): seq<Item>
    requires WholeRead(a)
  {
    [Quantity(a.chainId), Str(ToBytes(a.address)), OptionalQuantity(a.nonce), Quantity(a.v),
     Str(ToBytes(a.r)), Str(ToBytes(a.s))]
  }

  /** Byte data goes to the encoder as it is, and the encoder refuses half bytes. */
  function AuthItem(a: ReadAuthorization): Result<Item, HexError> {
    if WholeRead(a) then Ok(List(AuthFields(a))) else Err(OddLength)
  }

  function AuthItems(auths: seq<ReadAuthorization>): Result<seq<Item>, HexError> {
    if auths == [] then Ok([])
    else
      var first :- AuthItem(auths[0]);
      var rest :- AuthItems(auths[1..]);
      Ok([first] + rest)
  }

  /** All numbers of all authorizations are read before anything is encoded. */
  function AuthorizationItems(auths: seq<Authorization>): Result<seq<Item>, HexError> {
    var numbers :- ReadAll(auths);
    AuthItems(numbers)
  }

  /** The ten items whose encoding is hashed for signing. */
  function SignedFields(tx: Tx, auths: seq<Item>): seq<Item> {
    [Quantity(tx.chainId), OptionalQuantity(tx.nonce), OptionalQuantity(tx.maxPriorityFeePerGas),
     OptionalQuantity(tx.maxFeePerGas), Quantity(tx.gasLimit), Str(tx.to), OptionalQuantity(tx.value), Str(tx.data),
     List(tx.accessList), List(auths)]
  }

  /** The thirteen items of the transaction that is sent. */
  function SentFields(tx: Tx, auths: seq<Item>, signature: Signature): seq<Item> {
    [Quantity(tx.chainId), OptionalQuantity(tx.nonce), OptionalQuantity(tx.maxPriorityFeePerGas),
     OptionalQuantity(tx.maxFeePerGas), Quantity(tx.gasLimit), Str(tx.to), OptionalQuantity(tx.value), Str(tx.data),
     List(tx.accessList), List(auths),
     OptionalQuantity(signature.v), Str(signature.r), Str(signature.s)]
  }

  function SigningItems(tx: Tx): Result<seq<Item>, HexError> {
    var auths :- AuthorizationItems(tx.authorizationList);
    Ok(SignedFields(tx, auths))
  }

  function TransactionItems(tx: Tx, signature: Signature): Result<seq<Item>, HexError> {
    var auths :- AuthorizationItems(tx.authorizationList);
    Ok(SentFields(tx, auths, signature))
  }

  /** Lengths stay within what the encoding can write. */
  ghost predicate Short(items: Result<seq<Item>, HexError>) {
    items.Ok? ==> Fits(Size(List(items.value)))
  }

  function SigningPayload(tx: Tx): Result<Bytes, HexError>
    requires Short(SigningItems(tx))
  {
    var items :- SigningItems(tx);
    Ok([SET_CODE_TYPE] + Encode(List(items)))
  }

  function EncodeTransaction(tx: Tx, signature: Signature): Result<Bytes, HexError>
    requires Short(TransactionItems(tx, signature))
  {
    var items :- TransactionItems(tx, signature);
    Ok([SET_CODE_TYPE] + Encode(List(items)))
  }

  /** Both encodings of the transaction are short enough. */
  ghost predicate Sendable(tx: Tx, hash: Bytes -> Bytes, sign: Bytes -> Signature) {
    && Short(SigningItems(tx))
    && (SigningPayload(tx).Ok? ==> Short(TransactionItems(tx, sign(hash(SigningPayload(tx).value)))))
  }

  /** Signs the digest of the payload and encodes the result; hashing and signing are given. */
  function SignTransaction(tx: Tx, hash: Bytes -> Bytes, sign: Bytes -> Signature): Result<Bytes, HexError>
    requires Sendable(tx, hash, sign)
  {
    var payload :- SigningPayload(tx);
    EncodeTransaction(tx, sign(hash(payload)))
  }

  // ---- When a transaction is signed at all

  predicate Numeric(a: Authorization) {
    a.chainId != [] && a.nonce != [] && a.v != []
  }

  predicate Whole(a: Authorization) {
    IsBytes(a.address) && IsBytes(a.r) && IsBytes(a.s)
  }

  function Numbers(a: Authorization): ReadAuthorization {
    ReadAuthorization(Value(a.chainId), a.address, Value(a.nonce), Value(a.v), a.r, a.s)
  }

  lemma {:induction false} ReadAllAccepts(auths: seq<Authorization>)
    ensures ReadAll(auths).Ok? <==> forall i :: 0 <= i < |auths| ==> Numeric(auths[i])
    ensures ReadAll(auths).Err? ==> ReadAll(auths).error == NotANumber
    ensures ReadAll(auths).Ok? ==>
      var r := ReadAll(auths).value;
      |r| == |auths| && forall i :: 0 <= i < |r| ==> r[i] == Numbers(auths[i])
  {
    if auths != [] {
      ReadAllAccepts(auths[1..]);
      assert (forall i :: 0 <= i < |auths| ==> Numeric(auths[i]))
        <==> Numeric(auths[0]) && forall i :: 0 <= i < |auths[1..]| ==> Numeric(auths[1..][i]);
    }
  }

  lemma {:induction false} AuthItemsAccept(auths: seq<ReadAuthorization>)
    ensures AuthItems(auths).Ok? <==> forall i :: 0 <= i < |auths| ==> WholeRead(auths[i])
    ensures AuthItems(auths).Err? ==> AuthItems(auths).error == OddLength
    ensures AuthItems(auths).Ok? ==>
      var r := AuthItems(auths).value;
      |r| == |auths| && forall i :: 0 <= i < |r| ==> AuthItem(auths[i]) == Ok(r[i])
  {
    hide AuthFields, WholeRead;
    if auths != [] {
      var rest := auths[1..];
      AuthItemsAccept(rest);
      assert forall i :: 0 < i < |auths| ==> auths[i] == rest[i - 1];
      assert forall i :: 0 <= i < |rest| ==> rest[i] == auths[i + 1];
    }
  }

  lemma {:induction false} AuthorizationsAccept(auths: seq<Authorization>)
    ensures AuthorizationItems(auths).Ok? <==> forall i :: 0 <= i < |auths| ==> Numeric(auths[i]) && Whole(auths[i])
    ensures AuthorizationItems(auths) == Err(NotANumber) <==> exists i :: 0 <= i < |auths| && !Numeric(auths[i])
    ensures AuthorizationItems(auths).Ok? ==>
      var r := AuthorizationItems(auths).value;
      |r| == |auths| && forall i :: 0 <= i < |r| ==> AuthItem(Numbers(auths[i])) == Ok(r[i])
  {
    ReadAllAccepts(auths);
    if ReadAll(auths).Ok? {
      var numbers := ReadAll(auths).value;
      AuthItemsAccept(numbers);
      assert forall i :: 0 <= i < |auths| ==> WholeRead(numbers[i]) == Whole(auths[i]);
    }
  }

  /** A transaction is signed and sent exactly when every authorization's numbers have a digit and its byte fields
      are whole bytes; a missing digit anywhere is what is reported first. */
  lemma {:induction false} SignsExactly(tx: Tx, hash: Bytes -> Bytes, sign: Bytes -> Signature)
    requires Sendable(tx, hash, sign)
    ensures
      var auths := tx.authorizationList;
      && (SignTransaction(tx, hash, sign).Ok? <==>
          forall i :: 0 <= i < |auths| ==> Numeric(auths[i]) && Whole(auths[i]))
      && (SignTransaction(tx, hash, sign) == Err(NotANumber) <==> exists i :: 0 <= i < |auths| && !Numeric(auths[i]))
  {
    AuthorizationsAccept(tx.authorizationList);
  }

  /** What the client signs: the byte fields are whole. */
  datatype Signed = Signed(chainId: nat, address: Hex, nonce: nat, v: nat, r: Hex, s: Hex)

  /** `hexValue`: no leading zeros, one digit for zero. */
  function HexValue(n: nat): Hex {
    if n == 0 then [0] else Digits(n)
  }

  /** The authorization the client posts: it writes the nonce zero without a digit. */
  function Posted(x: Signed): Authorization {
    Authorization(HexValue(x.chainId), x.address, if HexValue(x.nonce) == [0] then [] else HexValue(x.nonce),
                  HexValue(x.v), x.r, x.s)
  }

  lemma {:induction false} HexValueReads(n: nat)
    ensures HexValue(n) != [] && Value(HexValue(n)) == n && (HexValue(n) == [0] <==> n == 0)
  {
    ValueDigits(n);
    assert n == 0 ==> Value([0]) == 0 by {
      assert [0][..0] == [];
    }
  }

  /** The bundler refuses the client's authorizations exactly when one of them is for nonce zero. */
  lemma {:induction false} ClientSigns(tx: Tx, xs: seq<Signed>, hash: Bytes -> Bytes, sign: Bytes -> Signature)
    requires Sendable(tx, hash, sign)
    requires |tx.authorizationList| == |xs|
    requires forall i :: 0 <= i < |xs| ==> tx.authorizationList[i] == Posted(xs[i]) && Whole(Posted(xs[i]))
    ensures SignTransaction(tx, hash, sign).Ok? <==> forall i :: 0 <= i < |xs| ==> xs[i].nonce != 0
    ensures SignTransaction(tx, hash, sign) == Err(NotANumber) <==> exists i :: 0 <= i < |xs| && xs[i].nonce == 0
  {
    SignsExactly(tx, hash, sign);
    forall i | 0 <= i < |xs|
      ensures Numeric(tx.authorizationList[i]) <==> xs[i].nonce != 0
    {
      HexValueReads(xs[i].chainId);
      HexValueReads(xs[i].nonce);
      HexValueReads(xs[i].v);
    }
  }

  // ---- What is signed and what is sent

  lemma {:induction false} ToBytesInjective(a: Hex, b: Hex)
    requires HexData.IsBytes(a) && HexData.IsBytes(b) && ToBytes(a) == ToBytes(b)
    ensures a == b
  {
    forall k | 0 <= k < |a|
      ensures a[k] == b[k]
    {
      var i := k / 2;
      assert ToBytes(a)[i] == ToBytes(b)[i];
      assert ByteOf(a[2 * i], a[2 * i + 1]) == ByteOf(b[2 * i], b[2 * i + 1]);
    }
  }

  lemma {:induction false} QuantityInjective(a: nat, b: nat)
    requires Quantity(a) == Quantity(b)
    ensures a == b
  {
    ToBytesInjective(Canonical(a), Canonical(b));
    ValueCanonical(a);
    ValueCanonical(b);
  }

  /** A printed number has whole bytes, so the comparison with the one-digit zero never succeeds; a number field is
      in the form RLP integers must have, without leading zero bytes, exactly when the number is not zero. */
  lemma {:induction false} QuantityCanonical(n: nat)
    ensures OptionalQuantity(n) == Quantity(n)
    ensures OptionalQuantity(n).data == [] || OptionalQuantity(n).data[0] != 0 <==> n != 0
  {
    if n > 0 {
      DigitsStart(n);
    }
  }

  lemma {:induction false} OptionalInjective(a: nat, b: nat)
    requires OptionalQuantity(a) == OptionalQuantity(b)
    ensures a == b
  {
    QuantityInjective(a, b);
  }

  lemma {:induction false} DigitsStart(n: nat)
    requires n > 0
    ensures |Digits(n)| > 0 && Digits(n)[0] != 0
  {
    if n >= 16 {
      DigitsStart(n / 16);
    }
  }

  // ---- The bytes determine the transaction

  /** Equal up to leading zeros in the numbers of the authorizations. */
  predicate SameTx(a: Tx, b: Tx) {
    && a.(authorizationList := []) == b.(authorizationList := [])
    && |a.authorizationList| == |b.authorizationList|
    && forall i :: 0 <= i < |a.authorizationList| ==> Numbers(a.authorizationList[i]) == Numbers(b.authorizationList[i])
  }

  lemma {:induction false} AuthFieldsInjective(a: ReadAuthorization, b: ReadAuthorization)
    requires WholeRead(a) && WholeRead(b) && AuthFields(a) == AuthFields(b)
    ensures a == b
  {
    hide Quantity, OptionalQuantity, ToBytes;
    var x, y := AuthFields(a), AuthFields(b);
    assert x[0] == y[0] && x[1] == y[1] && x[2] == y[2] && x[3] == y[3] && x[4] == y[4] && x[5] == y[5];
    QuantityInjective(a.chainId, b.chainId);
    OptionalInjective(a.nonce, b.nonce);
    QuantityInjective(a.v, b.v);
    ToBytesInjective(a.address, b.address);
    ToBytesInjective(a.r, b.r);
    ToBytesInjective(a.s, b.s);
  }

  lemma {:induction false} AuthorizationsInjective(a: seq<Authorization>, b: seq<Authorization>)
    requires AuthorizationItems(a).Ok? && AuthorizationItems(b).Ok?
    ensures AuthorizationItems(a) == AuthorizationItems(b) <==>
            |a| == |b| && forall i :: 0 <= i < |a| ==> Numbers(a[i]) == Numbers(b[i])
  {
    AuthorizationsAccept(a);
    AuthorizationsAccept(b);
    hide AuthorizationItems, AuthFields, Numbers;
    var x, y := AuthorizationItems(a).value, AuthorizationItems(b).value;
    if x == y {
      forall i | 0 <= i < |a|
        ensures Numbers(a[i]) == Numbers(b[i])
      {
        AuthFieldsInjective(Numbers(a[i]), Numbers(b[i]));
      }
    } else if |a| == |b| {
      var i :| 0 <= i < |x| && x[i] != y[i];
      assert AuthItem(Numbers(a[i])) == Ok(x[i]) && AuthItem(Numbers(b[i])) == Ok(y[i]);
    }
  }

  lemma {:induction false} SignedFieldsInjective(a: Tx, x: seq<Item>, b: Tx, y: seq<Item>)
    ensures SignedFields(a, x) == SignedFields(b, y) <==>
        a.(authorizationList := []) == b.(authorizationList := []) && x == y
  {
    hide Quantity, OptionalQuantity;
    var p, q := SignedFields(a, x), SignedFields(b, y);
    if p == q {
      assert p[0] == q[0] && p[1] == q[1] && p[2] == q[2] && p[3] == q[3] && p[4] == q[4];
      assert p[5] == q[5] && p[6] == q[6] && p[7] == q[7] && p[8] == q[8] && p[9] == q[9];
      QuantityInjective(a.chainId, b.chainId);
      OptionalInjective(a.nonce, b.nonce);
      OptionalInjective(a.maxPriorityFeePerGas, b.maxPriorityFeePerGas);
      OptionalInjective(a.maxFeePerGas, b.maxFeePerGas);
      QuantityInjective(a.gasLimit, b.gasLimit);
      OptionalInjective(a.value, b.value);
    }
  }

  lemma {:induction false} SigningItemsInjective(a: Tx, b: Tx)
    requires SigningItems(a).Ok? && SigningItems(b).Ok?
    ensures SigningItems(a) == SigningItems(b) <==> SameTx(a, b)
  {
    hide SignedFields, AuthorizationItems, Numbers;
    AuthorizationsInjective(a.authorizationList, b.authorizationList);
    SignedFieldsInjective(a, AuthorizationItems(a.authorizationList).value, b,
        AuthorizationItems(b.authorizationList).value);
  }

  lemma {:induction false} EncodedItems(x: seq<Item>, y: seq<Item>)
    requires Fits(Size(List(x))) && Fits(Size(List(y)))
    ensures [SET_CODE_TYPE] + Encode(List(x)) == [SET_CODE_TYPE] + Encode(List(y)) <==> x == y
  {
    var p, q := [SET_CODE_TYPE] + Encode(List(x)), [SET_CODE_TYPE] + Encode(List(y));
    if p == q {
      assert p[1..] == Encode(List(x)) && q[1..] == Encode(List(y));
      EncodeInjective(List(x), List(y));
    }
  }

  /** Two transactions share a signing payload exactly when they agree in every field. */
  lemma {:induction false} PayloadInjective(a: Tx, b: Tx)
    requires Short(SigningItems(a)) && Short(SigningItems(b))
    requires SigningPayload(a).Ok? && SigningPayload(b).Ok?
    ensures SigningPayload(a) == SigningPayload(b) <==> SameTx(a, b)
  {
    EncodedItems(SigningItems(a).value, SigningItems(b).value);
    SigningItemsInjective(a, b);
  }

  function SignatureItems(s: Signature): seq<Item> {
    [OptionalQuantity(s.v), Str(s.r), Str(s.s)]
  }

  lemma {:induction false} SentFieldsSplit(tx: Tx, auths: seq<Item>, signature: Signature)
    ensures SentFields(tx, auths, signature) == SignedFields(tx, auths) + SignatureItems(signature)
    ensures |SignedFields(tx, auths)| == 10
  {
    hide Quantity, OptionalQuantity;
  }

  lemma {:induction false} TransactionItemsSplit(tx: Tx, signature: Signature)
    requires SigningItems(tx).Ok?
    ensures TransactionItems(tx, signature) == Ok(SigningItems(tx).value + SignatureItems(signature))
    ensures |SigningItems(tx).value| == 10
  {
    hide AuthorizationItems, SentFields, SignedFields, SignatureItems;
    SentFieldsSplit(tx, AuthorizationItems(tx.authorizationList).value, signature);
  }

  lemma {:induction false} AppendParts<A>(a: seq<A>, b: seq<A>)
    ensures (a + b)[..|a|] == a && (a + b)[|a|..] == b
  {
  }

  /** What is sent decodes to thirteen items; the first ten, encoded again behind the type byte, are exactly the
      bytes that were hashed, and the last three are the signature of that hash. */
  lemma {:induction false} SentMatchesSigned(tx: Tx, hash: Bytes -> Bytes, sign: Bytes -> Signature)
    requires Sendable(tx, hash, sign) && SignTransaction(tx, hash, sign).Ok?
    ensures
      var sent := SignTransaction(tx, hash, sign).value;
      && |sent| > 0 && sent[0] == SET_CODE_TYPE
      && Decode(sent[1..]).Some? && Decode(sent[1..]).value.List?
      && var items := Decode(sent[1..]).value.items;
      && |items| == 13
      && SigningItems(tx) == Ok(items[..10])
      && SigningPayload(tx) == Ok([SET_CODE_TYPE] + Encode(List(items[..10])))
      && var signature := sign(hash([SET_CODE_TYPE] + Encode(List(items[..10]))));
         items[10..] == [OptionalQuantity(signature.v), Str(signature.r), Str(signature.s)]
  {
    var signature := sign(hash(SigningPayload(tx).value));
    var items := TransactionItems(tx, signature).value;
    var sent := SignTransaction(tx, hash, sign).value;
    assert sent[1..] == Encode(List(items));
    assert Encode(List(items)) + [] == Encode(List(items));
    DecodeEncode(List(items), []);
    TransactionItemsSplit(tx, signature);
    AppendParts(SigningItems(tx).value, SignatureItems(signature));
  }

  lemma {:induction false} SignatureItemsInjective(a: Signature, b: Signature)
    requires SignatureItems(a) == SignatureItems(b)
    ensures a == b
  {
    var x, y := SignatureItems(a), SignatureItems(b);
    assert x[0] == y[0] && x[1] == y[1] && x[2] == y[2];
    QuantityInjective(a.v, b.v);
  }

  lemma {:induction false} AppendInjective<A>(a: seq<A>, b: seq<A>, c: seq<A>, d: seq<A>)
    requires |a| == |c|
    ensures a + b == c + d <==> a == c && b == d
  {
    AppendParts(a, b);
    AppendParts(c, d);
  }

  lemma {:induction false} TransactionItemsInjective(a: Tx, sa: Signature, b: Tx, sb: Signature)
    requires SigningItems(a).Ok? && SigningItems(b).Ok?
    ensures TransactionItems(a, sa) == TransactionItems(b, sb) <==> SameTx(a, b) && sa == sb
  {
    TransactionItemsSplit(a, sa);
    TransactionItemsSplit(b, sb);
    AppendInjective(SigningItems(a).value, SignatureItems(sa), SigningItems(b).value, SignatureItems(sb));
    SigningItemsInjective(a, b);
    if SignatureItems(sa) == SignatureItems(sb) {
      SignatureItemsInjective(sa, sb);
    }
  }

  /** The sent bytes determine the transaction and the signature. */
  lemma {:induction false} SentInjective(a: Tx, sa: Signature, b: Tx, sb: Signature)
    requires Short(TransactionItems(a, sa)) && Short(TransactionItems(b, sb))
    requires EncodeTransaction(a, sa).Ok? && EncodeTransaction(b, sb).Ok?
    ensures EncodeTransaction(a, sa) == EncodeTransaction(b, sb) <==> SameTx(a, b) && sa == sb
  {
    EncodedItems(TransactionItems(a, sa).value, TransactionItems(b, sb).value);
    TransactionItemsInjective(a, sa, b, sb);
  }
}
