/** Word utilities of the binary format (engine/src/utils.rs): rounding up to
    a word boundary, zero padding of a byte vector, big-endian integers. */
module Utils {
  import opened Wrappers

  /** Rust's `u8`, `u16` and `u64`; every other integer is an unbounded `nat`. */
  type Byte = b: int | 0 <= b < 0x100
  type U16 = x: int | 0 <= x < 0x1_0000
  type U64 = x: int | 0 <= x < 0x1_0000_0000_0000_0000

  /** The number of values that `n` bytes can hold. */
  function Pow256(n: nat): (p: nat)
    ensures p > 0
  {
    if n == 0 then 1 else 256 * Pow256(n - 1)
  }

  lemma Pow256Values()
    ensures Pow256(2) == 0x1_0000
    ensures Pow256(6) == 0x1_0000_0000_0000
    ensures Pow256(7) == 0x100_0000_0000_0000
    ensures Pow256(8) == 0x1_0000_0000_0000_0000
  {
  }

  // ---------------------------------------------------------------------
  // Sequence identities, stated once so that callers with large contexts
  // need not prove them by extensionality
  // ---------------------------------------------------------------------

  lemma AppendAssoc<T>(a: seq<T>, b: seq<T>, c: seq<T>)
    ensures (a + b) + c == a + (b + c)
  {
  }

  lemma DropAppend<T>(a: seq<T>, b: seq<T>)
    ensures (a + b)[|a|..] == b
  {
  }

  lemma DropDrop<T>(s: seq<T>, i: nat, j: nat)
    requires i + j <= |s|
    ensures s[i..][j..] == s[i + j..]
  {
  }

  lemma AppendHeadTail<T>(xs: seq<T>, ys: seq<T>)
    requires xs != []
    ensures (xs + ys)[0] == xs[0] && (xs + ys)[1..] == xs[1..] + ys
  {
  }

  /** Dropping the first and the last element commute. */
  lemma ConsHeadTail<T>(s: seq<T>)
    requires s != []
    ensures [s[0]] + s[1..] == s
  {
  }

  lemma InitOfTail<T>(s: seq<T>)
    requires |s| >= 2
    ensures s[..|s| - 1][0] == s[0]
    ensures s[..|s| - 1][1..] == s[1..][..|s| - 2]
    ensures s[1..][|s| - 2] == s[|s| - 1]
  {
  }

  lemma IndexAppend<T>(a: seq<T>, b: seq<T>, i: nat)
    requires i < |a|
    ensures (a + b)[i] == a[i]
  {
  }

  /** A prefix is the concatenation of its four consecutive slices. */
  lemma SplitFour<T>(s: seq<T>, a: nat, b: nat, c: nat, d: nat)
    requires a <= b <= c <= d <= |s|
    ensures s[..d] == s[..a] + s[a..b] + s[b..c] + s[c..d]
  {
  }

  lemma SplitAt<T>(s: seq<T>, i: nat, j: nat)
    requires i <= j <= |s|
    ensures s[i..] == s[i..j] + s[j..]
  {
  }

  lemma AppendEmpty<T>(s: seq<T>)
    ensures s + [] == s && [] + s == s && s[0..] == s
  {
  }

  // ---------------------------------------------------------------------
  // Rounding up (`RoundUpToMultipleOf for usize`)
  // ---------------------------------------------------------------------

  /** `self + (number - self % number) % number`.  `number` must be positive,
      or the remainder divides by zero. */
  function RoundUpToMultipleOf(n: nat, m: nat): (r: nat)
    requires m > 0
    ensures r % m == 0
    ensures n <= r < n + m
    ensures n % m == 0 ==> r == n
  {
    var rem := n % m;
    if rem == 0 then
      DivModUnique(m, m, 1, 0);
      n + (m - rem) % m
    else
      DivModUnique(m - rem, m, 0, m - rem);
      DivModUnique(n + (m - rem), m, n / m + 1, 0);
      n + (m - rem) % m
  }

  lemma MulAtLeast(a: int, m: int)
    requires a >= 1 && m > 0
    ensures a * m >= m
  {
  }

  /** Euclidean quotient and remainder are unique. */
  lemma DivModUnique(x: int, m: int, q: int, s: int)
    requires m > 0 && 0 <= s < m && x == q * m + s
    ensures x / m == q && x % m == s
  {
    var q', s' := x / m, x % m;
    assert x == q' * m + s';
    assert (q - q') * m == s' - s;
    if q > q' {
      MulAtLeast(q - q', m);
    } else if q < q' {
      MulAtLeast(q' - q, m);
    }
  }

  /** Multiples of `m` add up to a multiple of `m`. */
  lemma MultiplesAdd(x: nat, y: nat, m: nat)
    requires m > 0 && x % m == 0 && y % m == 0
    ensures (x + y) % m == 0
  {
    DivModUnique(x + y, m, x / m + y / m, 0);
  }

  /** The result is the least multiple of `m` that is at least `n`. */
  lemma RoundUpIsLeast(n: nat, m: nat, k: nat)
    requires m > 0 && k % m == 0 && n <= k
    ensures RoundUpToMultipleOf(n, m) <= k
  {
    var r := RoundUpToMultipleOf(n, m);
    var a, b := r / m, k / m;
    assert r == a * m && k == b * m;
    if r > k {
      assert (a - b) * m == r - k;
      if a - b >= 1 {
        MulAtLeast(a - b, m);
      } else {
        MulAtLeast(1 - (a - b), m);
      }
    }
  }

  // ---------------------------------------------------------------------
  // Zero padding (`Align for Vec<u8>`)
  // ---------------------------------------------------------------------

  predicate AllZero(s: seq<Byte>) {
    forall i :: 0 <= i < |s| ==> s[i] == 0
  }

  /** Two zero runs of one length are equal. */
  lemma AllZeroSame(x: seq<Byte>, y: seq<Byte>)
    requires |x| == |y| && AllZero(x) && AllZero(y)
    ensures x == y
  {
  }

  function Zeros(k: nat): (z: seq<Byte>)
    ensures |z| == k && AllZero(z)
  {
    seq(k, _ => 0)
  }

  /** The buffer padded with zero bytes up to the next multiple of 8. */
  function Aligned(bytes: seq<Byte>): (r: seq<Byte>)
    ensures |r| % 8 == 0
    ensures |bytes| <= |r| < |bytes| + 8
    ensures r[..|bytes|] == bytes
    ensures AllZero(r[|bytes|..])
  {
    bytes + Zeros(RoundUpToMultipleOf(|bytes|, 8) - |bytes|)
  }

  /** An already aligned buffer is left unchanged, so padding is idempotent. */
  lemma AlignedIdempotent(bytes: seq<Byte>)
    ensures |bytes| % 8 == 0 ==> Aligned(bytes) == bytes
    ensures Aligned(Aligned(bytes)) == Aligned(bytes)
  {
    assert forall b: seq<Byte> | |b| % 8 == 0 :: Zeros(RoundUpToMultipleOf(|b|, 8) - |b|) == [];
  }

  /** Aligned is the only zero padding of fewer than 8 bytes that ends on a
      word boundary. */
  lemma AlignedUnique(bytes: seq<Byte>, r: seq<Byte>)
    requires |r| % 8 == 0 && |bytes| <= |r| < |bytes| + 8
    requires r[..|bytes|] == bytes && AllZero(r[|bytes|..])
    ensures r == Aligned(bytes)
  {
    var a := Aligned(bytes);
    RoundUpIsLeast(|bytes|, 8, |r|);
    RoundUpIsLeast(|bytes|, 8, |a|);
    assert |r| == |a|;
    forall i | 0 <= i < |r| ensures r[i] == a[i] {
      if i < |bytes| {
        assert r[..|bytes|][i] == a[..|bytes|][i];
      } else {
        assert r[|bytes|..][i - |bytes|] == 0 == a[|bytes|..][i - |bytes|];
      }
    }
  }

  /** Rust's `Vec<u8>`, as far as the format writes into one. */
  class ByteVec {
    var bytes: seq<Byte>

    constructor (bytes: seq<Byte>)
      ensures this.bytes == bytes
    {
      this.bytes := bytes;
    }

    /** `align`: pushes zeros until the length is a multiple of 8. */
    method Align()
      modifies this
      ensures bytes == Aligned(old(bytes))
    {
      var length := |bytes|;
      var fillingAmount := RoundUpToMultipleOf(length, 8) - length;
      for i := 0 to fillingAmount
        invariant bytes == old(bytes) + Zeros(i)
      {
        bytes := bytes + [0];
      }
    }
  }

  // ---------------------------------------------------------------------
  // Big-endian integers (`to_be_bytes`, `CloneFromSlice for u64`)
  // ---------------------------------------------------------------------

  /** The value of a big-endian byte string of any width. */
  function FromBigEndian(bs: seq<Byte>): (v: nat)
    ensures v < Pow256(|bs|)
  {
    if bs == [] then 0
    else
      var high := FromBigEndian(bs[..|bs| - 1]);
      assert high * 256 <= (Pow256(|bs| - 1) - 1) * 256;
      high * 256 + bs[|bs| - 1]
  }

  /** One more byte at the low end shifts the value up by a byte. */
  lemma FromBigEndianSnoc(bs: seq<Byte>, b: Byte)
    ensures FromBigEndian(bs + [b]) == FromBigEndian(bs) * 256 + b
  {
    assert (bs + [b])[..|bs|] == bs;
  }

  /** `to_be_bytes` generalised to any width that can hold `v`. */
  function ToBigEndian(v: nat, width: nat): (bs: seq<Byte>)
    requires v < Pow256(width)
    ensures |bs| == width
  {
    if width == 0 then [] else ToBigEndian(v / 256, width - 1) + [v % 256]
  }

  lemma {:induction false} FromToBigEndian(v: nat, width: nat)
    requires v < Pow256(width)
    ensures FromBigEndian(ToBigEndian(v, width)) == v
  {
    if width > 0 {
      var bs := ToBigEndian(v, width);
      assert bs[..width - 1] == ToBigEndian(v / 256, width - 1);
      FromToBigEndian(v / 256, width - 1);
    }
  }

  lemma {:induction false} ToFromBigEndian(bs: seq<Byte>)
    ensures ToBigEndian(FromBigEndian(bs), |bs|) == bs
  {
    if bs != [] {
      var init := bs[..|bs| - 1];
      ToFromBigEndian(init);
      var v := FromBigEndian(bs);
      assert v / 256 == FromBigEndian(init) && v % 256 == bs[|bs| - 1];
      assert bs == init + [bs[|bs| - 1]];
    }
  }

  /** A value that fits in `width` bytes has a zero byte in front when
      written with one byte more. */
  lemma {:induction false} ToBigEndianLeadingZero(v: nat, width: nat)
    requires v < Pow256(width)
    ensures ToBigEndian(v, width + 1) == [0] + ToBigEndian(v, width)
  {
    if width > 0 {
      ToBigEndianLeadingZero(v / 256, width - 1);
    }
  }

  lemma {:induction false} Pow256Monotone(w: nat, k: nat)
    ensures Pow256(w) <= Pow256(w + k)
  {
    if k > 0 {
      Pow256Monotone(w, k - 1);
    }
  }

  /** Writing a value with `k` more bytes than it needs puts `k` zero bytes
      in front. */
  lemma {:induction false} ToBigEndianPadded(v: nat, w: nat, k: nat)
    requires v < Pow256(w)
    ensures v < Pow256(w + k)
    ensures ToBigEndian(v, w + k) == Zeros(k) + ToBigEndian(v, w)
  {
    Pow256Monotone(w, k);
    if k > 0 {
      ToBigEndianPadded(v, w, k - 1);
      ToBigEndianLeadingZero(v, w + k - 1);
      assert [0] + Zeros(k - 1) == Zeros(k);
    }
  }

  /** 256^w is a one followed by `w` zero bytes. */
  lemma {:induction false} ToBigEndianPower(w: nat)
    ensures Pow256(w) < Pow256(w + 1)
    ensures ToBigEndian(Pow256(w), w + 1) == [1] + Zeros(w)
  {
    if w > 0 {
      ToBigEndianPower(w - 1);
      assert Pow256(w) / 256 == Pow256(w - 1) && Pow256(w) % 256 == 0;
      assert [1] + Zeros(w - 1) + [0] == [1] + Zeros(w);
    }
  }

  /** `u64::clone_from_slice` as written: it asserts an 8-byte slice before
      decoding it, so any other width panics. */
  function CloneFromSliceAsWritten(bytes: seq<Byte>): (r: Outcome<U64>)
    ensures r.Returns? <==> |bytes| == 8
    ensures r.Returns? ==> ToBigEndian(r.value, 8) == bytes
  {
    if |bytes| != 8 then Panics
    else
      Pow256Values();
      ToFromBigEndian(bytes);
      Returns(FromBigEndian(bytes))
  }

  /** On an 8-byte slice it inverts `to_be_bytes`. */
  lemma CloneFromSliceInvertsToBeBytes(v: U64)
    ensures Pow256(8) > v
    ensures CloneFromSliceAsWritten(ToBigEndian(v, 8)) == Returns(v)
  {
    Pow256Values();
    FromToBigEndian(v, 8);
  }
}
