/** Numbers as big-endian bytes, as keys in a JSON Web Key Set carry them: the RSA exponent
    (section 6.3.1.2 of RFC 7518) and the coordinates of an elliptic-curve point (section 6.2.1). */
module KeyBytes {
  import opened Wrappers

  type Byte = b: int | 0 <= b < 256

  type Bytes = seq<Byte>

  function BigEndian(bs: Bytes): nat {
    if bs == [] then 0 else 256 * BigEndian(bs[..|bs| - 1]) + bs[|bs| - 1]
  }

  function Pow256(n: nat): nat {
    if n == 0 then 1 else 256 * Pow256(n - 1)
  }

  lemma {:induction false} BigEndianFits(bs: Bytes)
    ensures BigEndian(bs) < Pow256(|bs|)
  {
    if bs != [] {
      BigEndianFits(bs[..|bs| - 1]);
    }
  }

  /** Byte strings of one length are equal as soon as their numbers are. */
  lemma {:induction false} SameNumberSameBytes(bs: Bytes, cs: Bytes)
    requires |bs| == |cs| && BigEndian(bs) == BigEndian(cs)
    ensures bs == cs
  {
    if bs != [] {
      var b, c := bs[|bs| - 1], cs[|cs| - 1];
      assert BigEndian(bs) % 256 == b && BigEndian(cs) % 256 == c;
      SameNumberSameBytes(bs[..|bs| - 1], cs[..|cs| - 1]);
      assert bs == bs[..|bs| - 1] + [b] && cs == cs[..|cs| - 1] + [c];
    }
  }

  function Zeros(n: nat): Bytes {
    seq(n, _ => 0)
  }

  /** Zeros in front do not change the number. */
  lemma {:induction false} PaddingKeepsNumber(n: nat, bs: Bytes)
    ensures BigEndian(Zeros(n) + bs) == BigEndian(bs)
    decreases n + |bs|
  {
    var padded := Zeros(n) + bs;
    if bs != [] {
      assert padded[..|padded| - 1] == Zeros(n) + bs[..|bs| - 1];
      PaddingKeepsNumber(n, bs[..|bs| - 1]);
    } else if n > 0 {
      assert padded[..|padded| - 1] == Zeros(n - 1) + bs;
      PaddingKeepsNumber(n - 1, bs);
    }
  }

  // ----- the RSA exponent -----

  const TWO63 := 0x8000_0000_0000_0000
  const TWO64 := 0x1_0000_0000_0000_0000

  /** A 64-bit int: what is left of a result that does not fit. */
  function Wrap64(x: int): (r: int)
    ensures -TWO63 <= r < TWO63 && (r - x) % TWO64 == 0
    ensures -TWO63 <= x < TWO63 ==> r == x
  {
    (x + TWO63) % TWO64 - TWO63
  }

  lemma WrapIsShift(x: int) returns (k: int)
    ensures Wrap64(x) == x + k * TWO64
  {
    k := (Wrap64(x) - x) / TWO64;
  }

  /** Numbers that differ by a multiple of 2^64 are cut alike. */
  lemma WrapCongruent(x: int, k: int)
    ensures Wrap64(x + k * TWO64) == Wrap64(x)
  {
    var l := WrapIsShift(x + k * TWO64);
    var m := WrapIsShift(x);
    assert -1 < k + l - m < 1;
  }

  /** Cutting before the shift and the sum makes no difference once the result is cut. */
  lemma WrapStep(e: int, b: int)
    ensures Wrap64(Wrap64(Wrap64(e) * 256) + b) == Wrap64(e * 256 + b)
  {
    var k := WrapIsShift(e);
    WrapCongruent(e * 256, 256 * k);
    var l := WrapIsShift(e * 256);
    WrapCongruent(e * 256 + b, l);
  }

  /** The loop that reads the exponent, with the shift and the sum each cut to 64 bits. */
  method Exponent(bs: Bytes) returns (e: int)
    ensures e == Wrap64(BigEndian(bs))
  {
    e := 0;
    for i := 0 to |bs|
      invariant e == Wrap64(BigEndian(bs[..i]))
    {
      assert bs[..i + 1][..i] == bs[..i];
      WrapStep(BigEndian(bs[..i]), bs[i]);
      e := Wrap64(Wrap64(e * 256) + bs[i]);
    }
    assert bs[..|bs|] == bs;
  }

  /** The bytes that count: everything from the first one that is not zero. */
  function Significant(bs: Bytes): Bytes {
    if bs != [] && bs[0] == 0 then Significant(bs[1..]) else bs
  }

  lemma {:induction false} SignificantKeepsNumber(bs: Bytes)
    ensures BigEndian(Significant(bs)) == BigEndian(bs)
    ensures Significant(bs) != [] ==> Significant(bs)[0] != 0
  {
    if bs != [] && bs[0] == 0 {
      assert bs == Zeros(1) + bs[1..];
      PaddingKeepsNumber(1, bs[1..]);
      SignificantKeepsNumber(bs[1..]);
    }
  }

  lemma Shift(b: int, p: int)
    ensures b * (256 * p) == 256 * (b * p)
  {
  }

  lemma {:induction false} LeadingByte(bs: Bytes)
    requires bs != []
    ensures BigEndian(bs) == bs[0] * Pow256(|bs| - 1) + BigEndian(bs[1..])
  {
    if |bs| > 1 {
      var front, last := bs[..|bs| - 1], bs[|bs| - 1];
      LeadingByte(front);
      assert front[1..] == bs[1..][..|bs| - 2];
      Shift(bs[0], Pow256(|bs| - 2));
    }
  }

  lemma {:induction false} PowGrows(m: nat, n: nat)
    requires m <= n
    ensures Pow256(m) <= Pow256(n)
  {
    if m < n {
      PowGrows(m, n - 1);
    }
  }

  lemma SevenAndEight()
    ensures Pow256(7) == 0x100_0000_0000_0000 && Pow256(8) == TWO64
  {
  }

  lemma FitsExactly(s: Bytes)
    requires s != [] ==> s[0] != 0
    ensures BigEndian(s) < TWO63 <==> |s| <= 7 || (|s| == 8 && s[0] < 128)
  {
    SevenAndEight();
    BigEndianFits(s);
    if |s| <= 7 {
      PowGrows(|s|, 7);
    } else if |s| == 8 {
      LeadingByte(s);
      BigEndianFits(s[1..]);
    } else {
      LeadingByte(s);
      PowGrows(8, |s| - 1);
      AtLeast(s[0], Pow256(|s| - 1));
    }
  }

  lemma AtLeast(b: nat, p: nat)
    requires b >= 1
    ensures b * p >= p
  {
  }

  /** Main result: the loop reads the exponent right if and only if, leading zeros aside, it has at
      most seven bytes, or eight of which the first is below 128. */
  lemma ExponentIsExact(bs: Bytes)
    ensures Wrap64(BigEndian(bs)) == BigEndian(bs) <==>
              var s := Significant(bs); |s| <= 7 || (|s| == 8 && s[0] < 128)
  {
    var s := Significant(bs);
    SignificantKeepsNumber(bs);
    FitsExactly(s);
  }

  // ----- points on a curve -----

  /** An uncompressed point: a four, then both coordinates at full length. */
  function Uncompressed(n: nat, x: Bytes, y: Bytes): Bytes
    requires |x| <= n && |y| <= n
  {
    [4] + (Zeros(n - |x|) + x) + (Zeros(n - |y|) + y)
  }

  /** Filling the buffer for a field of n bytes; coordinates that are too long are refused. */
  method EncodePoint(n: nat, x: Bytes, y: Bytes) returns (r: Option<Bytes>)
    ensures r == if |x| > n || |y| > n then None else Some(Uncompressed(n, x, y))
  {
    if |x| > n || |y| > n {
      return None;
    }
    var point := new Byte[1 + 2 * n](_ => 0);
    point[0] := 4;
    forall i | 0 <= i < |x| {
      point[1 + n - |x| + i] := x[i];
    }
    forall i | 0 <= i < |y| {
      point[1 + 2 * n - |y| + i] := y[i];
    }
    assert point[..] == Uncompressed(n, x, y);
    return Some(point[..]);
  }

  /** The library's reading of an uncompressed point, short of checking that it lies on the curve
      (section 2.3.4 of SEC 1). */
  function Coordinates(n: nat, point: Bytes): Option<(nat, nat)> {
    if |point| == 1 + 2 * n && point[0] == 4 then Some((BigEndian(point[1..1 + n]), BigEndian(point[1 + n..]))) else None
  }

  /** The buffer names the point the key gives, whether or not leading zeros were dropped ... */
  lemma UncompressedNames(n: nat, x: Bytes, y: Bytes)
    requires |x| <= n && |y| <= n
    ensures Coordinates(n, Uncompressed(n, x, y)) == Some((BigEndian(x), BigEndian(y)))
  {
    var u := Uncompressed(n, x, y);
    assert u[1..1 + n] == Zeros(n - |x|) + x && u[1 + n..] == Zeros(n - |y|) + y;
    PaddingKeepsNumber(n - |x|, x);
    PaddingKeepsNumber(n - |y|, y);
  }

  /** ... and a buffer is known by the point it names. */
  lemma SamePointSameBuffer(n: nat, p: Bytes, q: Bytes)
    requires Coordinates(n, p) == Coordinates(n, q) != None
    ensures p == q
  {
    SameNumberSameBytes(p[1..1 + n], q[1..1 + n]);
    SameNumberSameBytes(p[1 + n..], q[1 + n..]);
    assert p == [4] + p[1..1 + n] + p[1 + n..] && q == [4] + q[1..1 + n] + q[1 + n..];
  }

  /** Main result: the buffer filled for a key is the one buffer that names the key's point. */
  lemma PointRoundTrip(n: nat, x: Bytes, y: Bytes, point: Bytes)
    requires |x| <= n && |y| <= n
    ensures Coordinates(n, point) == Some((BigEndian(x), BigEndian(y))) <==> point == Uncompressed(n, x, y)
  {
    UncompressedNames(n, x, y);
    if Coordinates(n, point) == Some((BigEndian(x), BigEndian(y))) {
      SamePointSameBuffer(n, point, Uncompressed(n, x, y));
    }
  }
}
