/**
 Hex strings as the services handle them: the digits after `0x`, most significant first, letter case ignored.
 Byte data has an even number of digits; numbers may have any.
 */
module HexData {
  import opened Wrappers

  type Nibble = n: nat | n < 16

  type Hex = seq<Nibble>

  function Value(h: Hex): nat {
    if h == [] then 0 else 16 * Value(h[..|h| - 1]) + h[|h| - 1]
  }

  /** The digits of n without leading zeros; none for zero. */
  function Digits(n: nat): Hex {
    if n == 0 then [] else Digits(n / 16) + [n % 16]
  }

  /** `BigNumber.toHexString`: whole bytes, and one zero byte for zero. */
  function Canonical(n: nat): (h: Hex)
    ensures |h| % 2 == 0 && |h| > 0
  {
    var d := Digits(n);
    if n == 0 then [0, 0] else if |d| % 2 == 1 then [0] + d else d
  }

  function Zeros(n: nat): (h: Hex)
    ensures |h| == n && forall i :: 0 <= i < n ==> h[i] == 0
  {
    seq(n, i => 0)
  }

  predicate IsBytes(h: Hex) {
    |h| % 2 == 0
  }

  datatype HexError = OddLength | OutOfRange | NotANumber | InvalidAddress | FactoryMismatch

  /** `hexZeroPad`: refuses data that is longer, never cuts it. */
  function ZeroPad(h: Hex, bytes: nat): Result<Hex, HexError> {
    if |h| > 2 * bytes then Err(OutOfRange) else Ok(Zeros(2 * bytes - |h|) + h)
  }

  /** `BigNumber.from` on a hex string, which needs a digit. */
  function Number(h: Hex): Result<nat, HexError> {
    if h == [] then Err(NotANumber) else Ok(Value(h))
  }

  /** `hexlify` and the parts of `hexConcat`: whole bytes only. */
  function Bytes(h: Hex): Result<Hex, HexError> {
    if IsBytes(h) then Ok(h) else Err(OddLength)
  }

  function Address(h: Hex): Result<Hex, HexError> {
    if |h| == 40 then Ok(h) else Err(InvalidAddress)
  }

  function Pow16(n: nat): nat {
    if n == 0 then 1 else 16 * Pow16(n - 1)
  }

  lemma {:induction false} ValueSnoc(h: Hex, d: Nibble)
    ensures Value(h + [d]) == 16 * Value(h) + d
  {
    assert (h + [d])[..|h|] == h;
  }

  lemma {:induction false} ValueBound(h: Hex)
    ensures Value(h) < Pow16(|h|)
  {
    if h != [] {
      ValueBound(h[..|h| - 1]);
    }
  }

  lemma {:induction false} ValueDigits(n: nat)
    ensures Value(Digits(n)) == n
  {
    if n > 0 {
      ValueDigits(n / 16);
      ValueSnoc(Digits(n / 16), n % 16);
    }
  }

  lemma {:induction false} ValueZeros(k: nat, h: Hex)
    ensures Value(Zeros(k) + h) == Value(h)
  {
    if h == [] {
      if k > 0 {
        assert Zeros(k) + [] == Zeros(k - 1) + [] + [0];
        ValueZeros(k - 1, []);
        ValueSnoc(Zeros(k - 1) + [], 0);
      } else {
        assert Zeros(k) + h == h;
      }
    } else {
      var n := |h| - 1;
      assert (Zeros(k) + h)[..|Zeros(k) + h| - 1] == Zeros(k) + h[..n];
      ValueZeros(k, h[..n]);
    }
  }

  lemma {:induction false} ValueCanonical(n: nat)
    ensures Value(Canonical(n)) == n
  {
    ValueDigits(n);
    if n == 0 {
      assert [0, 0] == Zeros(2) + [];
      ValueZeros(2, []);
    } else if |Digits(n)| % 2 == 1 {
      assert Canonical(n) == Zeros(1) + Digits(n);
      ValueZeros(1, Digits(n));
    }
  }

  /** Equal length and value: equal digits. */
  lemma {:induction false} ValueInjective(a: Hex, b: Hex)
    requires |a| == |b| && Value(a) == Value(b)
    ensures a == b
  {
    if a != [] {
      var n := |a| - 1;
      assert a[n] == b[n];
      ValueInjective(a[..n], b[..n]);
      assert a == a[..n] + [a[n]] && b == b[..n] + [b[n]];
    }
  }

  lemma {:induction false} DigitsLength(n: nat, k: nat)
    requires n < Pow16(k)
    ensures |Digits(n)| <= k
  {
    if n > 0 {
      DigitsLength(n / 16, k - 1);
    }
  }

  /** Reading k bytes as a number, printing it and padding it back returns the same bytes. */
  lemma {:induction false} PadCanonical(h: Hex, k: nat)
    requires |h| == 2 * k && k > 0
    ensures ZeroPad(Canonical(Value(h)), k) == Ok(h)
  {
    ValueBound(h);
    DigitsLength(Value(h), 2 * k);
    var c := Canonical(Value(h));
    assert |c| <= 2 * k;
    ValueCanonical(Value(h));
    ValueZeros(2 * k - |c|, c);
    ValueInjective(Zeros(2 * k - |c|) + c, h);
  }

  /** Padding a number's digits and padding its printed form agree whenever both are accepted. */
  lemma {:induction false} PadsAgree(h: Hex, k: nat)
    requires h != [] && k > 0 && |h| <= 2 * k
    ensures ZeroPad(Canonical(Value(h)), k) == ZeroPad(h, k)
  {
    var full := Zeros(2 * k - |h|) + h;
    ValueZeros(2 * k - |h|, h);
    PadCanonical(full, k);
  }
}
