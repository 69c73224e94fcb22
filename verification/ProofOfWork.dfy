/**
 Hashcash: counting leading zero bits against a numeric bound, and the nonce search.  SHA-256 is any
 function to 32 bytes.
 */
module ProofOfWork {
  import opened Prelude
  import opened Text

  type byte = x: int | 0 <= x < 256
  type Bytes = seq<byte>
  type Hash = s: Bytes | |s| == 32 witness seq(32, _ => 0)

  const MAX_UINT64 := 0xFFFF_FFFF_FFFF_FFFF
  type u64 = x: int | 0 <= x <= MAX_UINT64
  type i64 = x: int | -0x8000_0000_0000_0000 <= x <= 0x7FFF_FFFF_FFFF_FFFF

  // ---------------------------------------------------------------- numbers and bytes

  function Pow2(n: nat): (p: nat)
    ensures p >= 1
  {
    if n == 0 then 1 else 2 * Pow2(n - 1)
  }

  /** The big-endian value of a byte string. */
  function Value(s: Bytes): nat {
    if s == [] then 0 else Value(s[..|s| - 1]) * 256 + s[|s| - 1]
  }

  /** The `k` low bytes of `n`, most significant first. */
  function BigEndian(n: nat, k: nat): (s: Bytes)
    ensures |s| == k
  {
    if k == 0 then [] else BigEndian(n / 256, k - 1) + [n % 256]
  }

  /** Go's conversion of an int64 to uint64. */
  function AsUint64(x: i64): u64 {
    if x < 0 then x + MAX_UINT64 + 1 else x
  }

  lemma {:induction false} PowSum(a: nat, b: nat)
    ensures Pow2(a + b) == Pow2(a) * Pow2(b)
  {
    if a > 0 {
      PowSum(a - 1, b);
      assert Pow2(a) * Pow2(b) == 2 * (Pow2(a - 1) * Pow2(b));
    }
  }

  lemma {:induction false} PowMonotone(a: nat, b: nat)
    requires a <= b
    ensures Pow2(a) <= Pow2(b)
    decreases b
  {
    if a < b {
      PowMonotone(a, b - 1);
    }
  }

  lemma PowByte(n: nat)
    ensures Pow2(n + 8) == 256 * Pow2(n)
  {
    PowSum(8, n);
    assert Pow2(8) == 256;
  }

  lemma {:induction false} ValueBound(s: Bytes)
    ensures Value(s) < Pow2(8 * |s|)
  {
    if s != [] {
      ValueBound(s[..|s| - 1]);
      PowByte(8 * (|s| - 1));
    }
  }

  lemma {:induction false} ValueFront(b: byte, t: Bytes)
    ensures Value([b] + t) == b * Pow2(8 * |t|) + Value(t)
  {
    if t == [] {
      assert [b] + t == [b] && [b][..0] == [];
    } else {
      var t' := t[..|t| - 1];
      assert ([b] + t)[..|t|] == [b] + t';
      ValueFront(b, t');
      PowByte(8 * |t'|);
      assert (b * Pow2(8 * |t'|)) * 256 == b * Pow2(8 * |t|);
    }
  }

  /** Reading back what PutUint64 wrote: distinct nonces are hashed as distinct texts. */
  lemma {:induction false} BigEndianRoundTrip(n: nat, k: nat)
    requires n < Pow2(8 * k)
    ensures Value(BigEndian(n, k)) == n
  {
    if k > 0 {
      PowByte(8 * (k - 1));
      BigEndianRoundTrip(n / 256, k - 1);
      assert BigEndian(n, k)[..k - 1] == BigEndian(n / 256, k - 1);
    }
  }

  /** `zeros` leading zero bits and no more, said of the value: it has exactly `bits - zeros` binary digits. */
  ghost predicate LeadingZeros(value: nat, bits: nat, zeros: int) {
    && 0 <= zeros <= bits
    && value < Pow2(bits - zeros)
    && (zeros < bits ==> value >= Pow2(bits - zeros - 1))
  }

  /** At least `d` leading zero bits means below `2^(bits - d)`. */
  lemma ZerosAreABound(value: nat, bits: nat, zeros: int, d: nat)
    requires LeadingZeros(value, bits, zeros) && d <= bits
    ensures zeros >= d <==> value < Pow2(bits - d)
  {
    if d <= zeros {
      PowMonotone(bits - zeros, bits - d);
    } else {
      PowMonotone(bits - d, bits - zeros - 1);
    }
  }

  lemma ProductMonotone(a: nat, b: nat, p: nat)
    ensures a <= b ==> a * p <= b * p
  {
    assert b * p == a * p + (b - a) * p;
  }

  /** One non-zero byte in front of `t`, with `z` zero bits of its own. */
  lemma FirstByteDecides(b: byte, t: Bytes, z: nat)
    requires z < 8 && Pow2(7 - z) <= b < Pow2(8 - z)
    ensures LeadingZeros(Value([b] + t), 8 * (|t| + 1), z)
  {
    var p := Pow2(8 * |t|);
    ValueFront(b, t);
    ValueBound(t);
    PowSum(7 - z, 8 * |t|);
    PowSum(8 - z, 8 * |t|);
    ProductMonotone(Pow2(7 - z), b, p);
    ProductMonotone(b + 1, Pow2(8 - z), p);
    assert (b + 1) * p == b * p + p;
    assert Pow2(7 - z) * p == Pow2(8 * (|t| + 1) - z - 1);
    assert Pow2(8 - z) * p == Pow2(8 * (|t| + 1) - z);
  }

  lemma Quotient(b: nat, p: nat)
    requires p >= 1 && b < 2 * p
    ensures b / p == if b < p then 0 else 1
  {
    var q := b / p;
    assert b == q * p + b % p;
    ProductMonotone(1, q, p);
    ProductMonotone(2, q, p);
  }

  /** Below `2^(i+1)`, bit `i` is zero exactly for the numbers below `2^i`. */
  lemma TopBit(b: nat, i: nat)
    requires b < Pow2(i + 1)
    ensures (b / Pow2(i)) % 2 == 0 <==> b < Pow2(i)
  {
    Quotient(b, Pow2(i));
  }

  method CountLeadingZeroBits(hash: Bytes) returns (zeros: int)
    ensures LeadingZeros(Value(hash), 8 * |hash|, zeros)
  {
    zeros := 0;
    for k := 0 to |hash|
      invariant zeros == 8 * k
      invariant Value(hash) == Value(hash[k..])
    {
      var b := hash[k];
      ghost var t := hash[k + 1..];
      assert hash[k..] == [b] + t;
      if b == 0 {
        ValueFront(b, t);
        zeros := zeros + 8;
      } else {
        var i := 7;
        assert Pow2(8) == 256;
        while i >= 0
          invariant -1 <= i <= 7 && zeros == 8 * k + 7 - i
          invariant b < Pow2(i + 1)
        {
          TopBit(b, i);
          if (b / Pow2(i)) % 2 == 0 {
            zeros := zeros + 1;
          } else {
            break;
          }
          i := i - 1;
        }
        FirstByteDecides(b, t, 7 - i);
        return;
      }
    }
    assert hash[|hash|..] == [];
  }

  // ---------------------------------------------------------------- the puzzle

  function Digest(sha: Bytes -> Hash, baseHash: Hash, nonce: u64): Hash {
    sha(baseHash + BigEndian(nonce, 8))
  }

  /** Two different texts with one hash. */
  predicate Collide(sha: Bytes -> Hash, x: Bytes, y: Bytes) {
    x != y && sha(x) == sha(y)
  }

  lemma {:induction false} BigEndianInjective(a: nat, b: nat, k: nat)
    requires a < Pow2(8 * k) && b < Pow2(8 * k) && BigEndian(a, k) == BigEndian(b, k)
    ensures a == b
  {
    BigEndianRoundTrip(a, k);
    BigEndianRoundTrip(b, k);
  }

  lemma Doubled(n: nat, p: nat)
    requires Pow2(n) == p
    ensures Pow2(n + n) == p * p
  {
    PowSum(n, n);
  }

  lemma EightBytes()
    ensures Pow2(8 * 8) == MAX_UINT64 + 1
  {
    var p8, p16, p32 := 0x100, 0x1_0000, 0x1_0000_0000;
    assert Pow2(8) == p8;
    Doubled(8, p8);
    Doubled(16, p16);
    Doubled(32, p32);
  }

  /** One digest for two puzzles or two nonces is a collision of the hash function. */
  lemma DigestBindsExactly(sha: Bytes -> Hash, base: Hash, nonce: u64, other: Hash, nonce': u64) returns (x: Bytes,
                           y: Bytes)
    ensures base == other && nonce == nonce' ==> Digest(sha, base, nonce) == Digest(sha, other, nonce')
    ensures Digest(sha, base, nonce) == Digest(sha, other, nonce') && (base != other || nonce != nonce') ==>
              Collide(sha, x, y)
  {
    x, y := base + BigEndian(nonce, 8), other + BigEndian(nonce', 8);
    if x == y {
      TailsApart(base, BigEndian(nonce, 8), other, BigEndian(nonce', 8));
      EightBytes();
      BigEndianInjective(nonce, nonce', 8);
    }
  }

  /** The puzzle as a bound: the digest, read as a 256-bit number, is below `2^(256 - difficulty)`. */
  ghost predicate Solves(sha: Bytes -> Hash, baseHash: Hash, difficulty: int, nonce: u64) {
    difficulty <= 0 || (difficulty <= 256 && Value(Digest(sha, baseHash, nonce)) < Pow2(256 - difficulty))
  }

  ghost predicate Solvable(sha: Bytes -> Hash, baseHash: Hash, difficulty: int) {
    exists nonce: u64 :: nonce < MAX_UINT64 && Solves(sha, baseHash, difficulty, nonce)
  }

  method VerifyPoW(sha: Bytes -> Hash, baseHash: Hash, difficulty: int, nonce: u64) returns (ok: bool)
    ensures ok <==> Solves(sha, baseHash, difficulty, nonce)
  {
    if difficulty <= 0 {
      return true;
    }
    var hash := sha(baseHash + BigEndian(nonce, 8));
    var zeros := CountLeadingZeroBits(hash);
    if difficulty <= 256 {
      ZerosAreABound(Value(hash), 256, zeros, difficulty);
    }
    return zeros >= difficulty;
  }

  /** The least solving nonce below the largest uint64; zero when there is none or nothing is asked. */
  method MinePoW(sha: Bytes -> Hash, baseHash: Hash, difficulty: int) returns (nonce: u64)
    ensures difficulty <= 0 ==> nonce == 0
    ensures Solvable(sha, baseHash, difficulty) ==>
              Solves(sha, baseHash, difficulty, nonce)
              && forall k: u64 :: k < nonce ==> !Solves(sha, baseHash, difficulty, k)
    ensures !Solvable(sha, baseHash, difficulty) ==> nonce == 0 && !Solves(sha, baseHash, difficulty, 0)
  {
    if difficulty <= 0 {
      return 0;
    }
    nonce := 0;
    while nonce < MAX_UINT64
      invariant forall k: u64 :: k < nonce ==> !Solves(sha, baseHash, difficulty, k)
      decreases MAX_UINT64 - nonce
    {
      var solved := VerifyPoW(sha, baseHash, difficulty, nonce);
      if solved {
        return;
      }
      nonce := nonce + 1;
    }
    return 0;
  }
}
