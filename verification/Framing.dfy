/** Byte framings that feed hashes, and why no two field lists share a preimage.

    Two framings occur: the 8-byte big-endian length frame (canonical JSON, recovery of tasks by
    fingerprint, the quota identity HMAC) and the decimal `len:value` concatenation of the alert
    occurrence key. */
module Framing {
  type byte = b: int | 0 <= b < 256
  type Bytes = seq<byte>

  /** A Go string or slice: its length is a non-negative int. */
  type Text = t: Bytes | |t| < 0x8000_0000_0000_0000

  const TWO_64: int := 0x1_0000_0000_0000_0000

  /** Two explicit preimages of one hash value. */
  ghost predicate Collides<D>(h: Bytes -> D, x: Bytes, y: Bytes) {
    x != y && h(x) == h(y)
  }

  // ----- big-endian integers -----

  /** The low k bytes of n, most significant first. */
  function BigEndian(n: nat, k: nat): (b: Bytes)
    ensures |b| == k
  {
    if k == 0 then [] else BigEndian(n / 256, k - 1) + [n % 256]
  }

  function Pow256(k: nat): nat {
    if k == 0 then 1 else 256 * Pow256(k - 1)
  }

  lemma {:induction false} BigEndianInjective(m: nat, n: nat, k: nat)
    requires m < Pow256(k) && n < Pow256(k) && BigEndian(m, k) == BigEndian(n, k)
    ensures m == n
  {
    if k != 0 {
      var a, b := BigEndian(m / 256, k - 1), BigEndian(n / 256, k - 1);
      assert (a + [m % 256])[k - 1] == m % 256 && (b + [n % 256])[k - 1] == n % 256;
      assert (a + [m % 256])[..k - 1] == a && (b + [n % 256])[..k - 1] == b;
      BigEndianInjective(m / 256, n / 256, k - 1);
    }
  }

  /** The number that bytes spell, most significant first. */
  function BigEndianValue(b: Bytes): nat {
    if b == [] then 0 else 256 * BigEndianValue(b[..|b| - 1]) + b[|b| - 1]
  }

  lemma {:induction false} BigEndianReads(n: nat, k: nat)
    requires n < Pow256(k)
    ensures BigEndianValue(BigEndian(n, k)) == n
  {
    if k != 0 {
      BigEndianReads(n / 256, k - 1);
      assert BigEndian(n, k)[..k - 1] == BigEndian(n / 256, k - 1);
    }
  }

  /** What binary.BigEndian.PutUint64 writes. */
  function Be64(n: nat): (b: Bytes)
    ensures |b| == 8
  {
    BigEndian(n, 8)
  }

  lemma Be64Injective(m: nat, n: nat)
    requires m < TWO_64 && n < TWO_64 && Be64(m) == Be64(n)
    ensures m == n
  {
    assert Pow256(2) == 0x1_0000 && Pow256(4) == 0x1_0000_0000;
    assert Pow256(6) == 0x1_0000_0000_0000 && Pow256(8) == TWO_64;
    BigEndianInjective(m, n, 8);
  }

  // ----- length frames -----

  function Frame(value: Bytes): (b: Bytes)
    ensures |b| == 8 + |value|
  {
    Be64(|value|) + value
  }

  function Frames(values: seq<Bytes>): Bytes {
    if values == [] then [] else Frame(values[0]) + Frames(values[1..])
  }

  /** A frame can be split off the front of any byte string in at most one way. */
  lemma FrameSplits(a: Bytes, x: Bytes, b: Bytes, y: Bytes)
    requires |a| < TWO_64 && |b| < TWO_64 && Frame(a) + x == Frame(b) + y
    ensures a == b && x == y
  {
    var s, t := Frame(a) + x, Frame(b) + y;
    assert s[..8] == Be64(|a|) && t[..8] == Be64(|b|);
    Be64Injective(|a|, |b|);
    assert s[8..8 + |a|] == a && t[8..8 + |b|] == b;
    assert s[8 + |a|..] == x && t[8 + |b|..] == y;
  }

  ghost predicate Framable(values: seq<Bytes>) {
    forall i :: 0 <= i < |values| ==> |values[i]| < TWO_64
  }

  /** Distinct field lists, of whatever lengths, have distinct framed preimages. */
  lemma {:induction false} FramesInjective(v: seq<Bytes>, w: seq<Bytes>)
    requires Framable(v) && Framable(w) && Frames(v) == Frames(w)
    ensures v == w
    decreases |v|
  {
    if v != [] && w != [] {
      FrameSplits(v[0], Frames(v[1..]), w[0], Frames(w[1..]));
      FramesInjective(v[1..], w[1..]);
      assert v == [v[0]] + v[1..] && w == [w[0]] + w[1..];
    }
  }

  // ----- decimal numbers -----

  const ZERO: byte := 48
  const COLON: byte := 58

  /** strconv.FormatInt and %d of a natural number. */
  function Decimal(n: nat): (b: Bytes)
    ensures |b| > 0
    ensures forall i :: 0 <= i < |b| ==> ZERO <= b[i] < COLON
  {
    if n < 10 then [ZERO + n] else Decimal(n / 10) + [ZERO + n % 10]
  }

  function DecimalValue(b: Bytes): int {
    if b == [] then 0 else 10 * DecimalValue(b[..|b| - 1]) + b[|b| - 1] - ZERO
  }

  lemma {:induction false} DecimalRoundTrip(n: nat)
    ensures DecimalValue(Decimal(n)) == n
  {
    if n < 10 {
      assert Decimal(n)[..0] == [];
    } else {
      DecimalRoundTrip(n / 10);
      assert Decimal(n)[..|Decimal(n)| - 1] == Decimal(n / 10);
    }
  }

  lemma DecimalInjective(m: nat, n: nat)
    requires Decimal(m) == Decimal(n)
    ensures m == n
  {
    DecimalRoundTrip(m);
    DecimalRoundTrip(n);
  }

  // ----- the len:value concatenation -----

  function Tagged(value: Bytes): Bytes {
    Decimal(|value|) + [COLON] + value
  }

  function TaggedAll(values: seq<Bytes>): Bytes {
    if values == [] then [] else Tagged(values[0]) + TaggedAll(values[1..])
  }

  /** Two colon-free prefixes before a colon must be the same prefix. */
  lemma ColonSplits(p: Bytes, x: Bytes, q: Bytes, y: Bytes)
    requires COLON !in p && COLON !in q && p + [COLON] + x == q + [COLON] + y
    ensures p == q && x == y
  {
    var s, t := p + [COLON] + x, q + [COLON] + y;
    assert s[|p|] == COLON && t[|q|] == COLON;
    assert |p| == |q|;
    assert s[..|p|] == p && t[..|q|] == q;
    assert s[|p| + 1..] == x && t[|q| + 1..] == y;
  }

  lemma TaggedSplits(a: Bytes, x: Bytes, b: Bytes, y: Bytes)
    requires Tagged(a) + x == Tagged(b) + y
    ensures a == b && x == y
  {
    var p, q := Decimal(|a|), Decimal(|b|);
    assert Tagged(a) + x == p + [COLON] + (a + x);
    assert Tagged(b) + y == q + [COLON] + (b + y);
    ColonSplits(p, a + x, q, b + y);
    DecimalInjective(|a|, |b|);
    assert (a + x)[..|a|] == a && (b + y)[..|b|] == b;
    assert (a + x)[|a|..] == x && (b + y)[|b|..] == y;
  }

  /** The decimal tags need no length bound: every list of byte strings is recoverable. */
  lemma {:induction false} TaggedInjective(v: seq<Bytes>, w: seq<Bytes>)
    requires TaggedAll(v) == TaggedAll(w)
    ensures v == w
    decreases |v|
  {
    if v != [] && w != [] {
      TaggedSplits(v[0], TaggedAll(v[1..]), w[0], TaggedAll(w[1..]));
      TaggedInjective(v[1..], w[1..]);
      assert v == [v[0]] + v[1..] && w == [w[0]] + w[1..];
    }
  }

  // ----- lower-case hexadecimal -----

  function HexDigit(n: int): byte
    requires 0 <= n < 16
  {
    if n < 10 then ZERO + n else 87 + n
  }

  function Hex(b: Bytes): Bytes {
    if b == [] then [] else [HexDigit(b[0] / 16), HexDigit(b[0] % 16)] + Hex(b[1..])
  }

  lemma {:induction false} HexInjective(a: Bytes, b: Bytes)
    requires Hex(a) == Hex(b)
    ensures a == b
  {
    if a != [] && b != [] {
      assert Hex(a)[..2] == [HexDigit(a[0] / 16), HexDigit(a[0] % 16)];
      assert Hex(a)[0] == HexDigit(a[0] / 16) && Hex(b)[0] == HexDigit(b[0] / 16);
      assert Hex(a)[1] == HexDigit(a[0] % 16) && Hex(b)[1] == HexDigit(b[0] % 16);
      assert Hex(a)[2..] == Hex(a[1..]) && Hex(b)[2..] == Hex(b[1..]);
      HexInjective(a[1..], b[1..]);
      assert a == [a[0]] + a[1..] && b == [b[0]] + b[1..];
    }
  }

  /** The value of a lower-case hex digit. */
  function HexValue(b: byte): int {
    if ZERO <= b < COLON then b - ZERO else if 97 <= b <= 102 then b - 97 + 10 else -1
  }

  /** Two lower-case digits for every byte, the high half first. */
  lemma {:induction false} HexReads(b: Bytes, i: nat)
    requires i < |b|
    ensures |Hex(b)| == 2 * |b|
    ensures 0 <= HexValue(Hex(b)[2 * i]) && 0 <= HexValue(Hex(b)[2 * i + 1])
    ensures 16 * HexValue(Hex(b)[2 * i]) + HexValue(Hex(b)[2 * i + 1]) == b[i]
    decreases |b|
  {
    HexLength(b);
    if i > 0 {
      HexReads(b[1..], i - 1);
      assert Hex(b)[2 * i] == Hex(b[1..])[2 * (i - 1)] && Hex(b)[2 * i + 1] == Hex(b[1..])[2 * (i - 1) + 1];
    }
  }

  lemma {:induction false} HexLength(b: Bytes)
    ensures |Hex(b)| == 2 * |b|
  {
    if b != [] { HexLength(b[1..]); }
  }
}
