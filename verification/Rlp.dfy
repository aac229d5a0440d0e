/** Recursive length prefix encoding (Ethereum Yellow Paper, Appendix B). */
module Rlp {
  import opened Wrappers

  type Byte = b: nat | b < 256

  type Bytes = seq<Byte>

  datatype Item = Str(data: Bytes) | List(items: seq<Item>)

  function Power256(k: nat): nat {
    if k == 0 then 1 else 256 * Power256(k - 1)
  }

  /** The big-endian bytes of n without leading zeros; none for zero. */
  function BigEndian(n: nat): Bytes {
    if n == 0 then [] else BigEndian(n / 256) + [n % 256]
  }

  function FromBigEndian(b: Bytes): nat {
    if b == [] then 0 else 256 * FromBigEndian(b[..|b| - 1]) + b[|b| - 1]
  }

  function HeaderSize(len: nat): nat {
    if len <= 55 then 1 else 1 + |BigEndian(len)|
  }

  function Size(x: Item): nat {
    match x
    case Str(d) => if |d| == 1 && d[0] < 128 then 1 else HeaderSize(|d|) + |d|
    case List(xs) => HeaderSize(SizeAll(xs)) + SizeAll(xs)
  }

  function SizeAll(xs: seq<Item>): nat {
    if xs == [] then 0 else Size(xs[0]) + SizeAll(xs[1..])
  }

  /** Lengths are written in at most eight bytes. */
  ghost predicate Fits(n: nat) {
    n < Power256(8)
  }

  function Header(offset: nat, len: nat): (h: Bytes)
    requires offset <= 192 && Fits(len)
    ensures |h| == HeaderSize(len)
  {
    if len <= 55 then [offset + len]
    else
      BigEndianLength(len, 8);
      [offset + 55 + |BigEndian(len)|] + BigEndian(len)
  }

  function Encode(x: Item): (b: Bytes)
    requires Fits(Size(x))
    ensures |b| == Size(x)
  {
    match x
    case Str(d) => if |d| == 1 && d[0] < 128 then d else Header(0x80, |d|) + d
    case List(xs) =>
      var payload := EncodeAll(xs);
      Header(0xc0, |payload|) + payload
  }

  function EncodeAll(xs: seq<Item>): (b: Bytes)
    requires Fits(SizeAll(xs))
    ensures |b| == SizeAll(xs)
  {
    if xs == [] then [] else Encode(xs[0]) + EncodeAll(xs[1..])
  }

  /** Where an item's content starts and how long it is. */
  function Span(b: Bytes, offset: nat): Option<(nat, nat)>
    requires |b| > 0 && offset <= b[0]
  {
    if b[0] <= offset + 55 then Some((1, b[0] - offset))
    else
      var n := b[0] - offset - 55;
      if 1 + n <= |b| then Some((1 + n, FromBigEndian(b[1..1 + n]))) else None
  }

  /** The first item of b and the bytes after it. */
  function DecodeItem(b: Bytes): (r: Option<(Item, Bytes)>)
    ensures r.Some? ==> |r.value.1| < |b|
    decreases |b|, 0
  {
    if b == [] then None
    else if b[0] < 0x80 then Some((Str([b[0]]), b[1..]))
    else
      var span := if b[0] < 0xc0 then Span(b, 0x80) else Span(b, 0xc0);
      if span.None? || span.value.0 + span.value.1 > |b| then None
      else
        var start, end := span.value.0, span.value.0 + span.value.1;
        if b[0] < 0xc0 then Some((Str(b[start..end]), b[end..]))
        else
          var items := DecodeAll(b[start..end]);
          if items.None? then None else Some((List(items.value), b[end..]))
  }

  function DecodeAll(b: Bytes): Option<seq<Item>>
    decreases |b|, 1
  {
    if b == [] then Some([])
    else
      var first := DecodeItem(b);
      if first.None? then None
      else
        var others := DecodeAll(first.value.1);
        if others.None? then None else Some([first.value.0] + others.value)
  }

  /** One item and nothing after it. */
  function Decode(b: Bytes): Option<Item> {
    var r := DecodeItem(b);
    if r.Some? && r.value.1 == [] then Some(r.value.0) else None
  }

  lemma {:induction false} BigEndianLength(n: nat, k: nat)
    requires n < Power256(k)
    ensures |BigEndian(n)| <= k && (n > 0 ==> |BigEndian(n)| > 0)
  {
    if n > 0 {
      BigEndianLength(n / 256, k - 1);
    }
  }

  lemma {:induction false} BigEndianValue(n: nat)
    ensures FromBigEndian(BigEndian(n)) == n
  {
    if n > 0 {
      BigEndianValue(n / 256);
      var b := BigEndian(n);
      assert b[..|b| - 1] == BigEndian(n / 256);
    }
  }

  lemma {:induction false} SpanOfHeader(offset: nat, len: nat, tail: Bytes)
    requires offset <= 192 && Fits(len)
    ensures
      var b := Header(offset, len) + tail;
      b[0] >= offset && Span(b, offset) == Some((HeaderSize(len), len)) && (len <= 55 ==> b[0] <= offset + 55)
      && b[0] <= offset + 63
  {
    if len > 55 {
      BigEndianLength(len, 8);
      BigEndianValue(len);
      var b := Header(offset, len) + tail;
      assert b[1..1 + |BigEndian(len)|] == BigEndian(len);
    }
  }

  lemma {:induction false} SplitContent(header: Bytes, content: Bytes, rest: Bytes)
    ensures
      var b := header + content + rest;
      b[|header|..|header| + |content|] == content && b[|header| + |content|..] == rest
      && b == header + (content + rest)
  {
  }

  /** Decoding an encoding, whatever follows it, returns the item and what follows. */
  lemma {:induction false} DecodeEncode(x: Item, rest: Bytes)
    requires Fits(Size(x))
    ensures DecodeItem(Encode(x) + rest) == Some((x, rest))
    decreases x
  {
    match x
    case Str(d) =>
      if |d| == 1 && d[0] < 128 {
        assert (d + rest)[1..] == rest && [(d + rest)[0]] == d;
      } else {
        SpanOfHeader(0x80, |d|, d + rest);
        SplitContent(Header(0x80, |d|), d, rest);
      }
    case List(xs) =>
      var payload := EncodeAll(xs);
      SpanOfHeader(0xc0, |payload|, payload + rest);
      SplitContent(Header(0xc0, |payload|), payload, rest);
      DecodeEncodeAll(xs);
  }

  lemma {:induction false} DecodeEncodeAll(xs: seq<Item>)
    requires Fits(SizeAll(xs))
    ensures DecodeAll(EncodeAll(xs)) == Some(xs)
    decreases xs
  {
    if xs != [] {
      DecodeEncode(xs[0], EncodeAll(xs[1..]));
      DecodeEncodeAll(xs[1..]);
      assert Size(xs[0]) > 0;
      assert [xs[0]] + xs[1..] == xs;
    }
  }

  /** Two items with the same encoding are the same item. */
  lemma {:induction false} EncodeInjective(x: Item, y: Item)
    requires Fits(Size(x)) && Fits(Size(y)) && Encode(x) == Encode(y)
    ensures x == y
  {
    DecodeEncode(x, []);
    DecodeEncode(y, []);
  }
}
