/** The string hash: 32-bit arithmetic over the bytes of a string, and the bucket it selects. Words are numbers
    below 2^32; the bitwise operations work on their binary digits.
 */
module HashString {
  import opened Division

  type Byte = b: nat | b < 256

  type Bytes = seq<Byte>

  const WORD: nat := 0x1_0000_0000

  function BitXor(a: nat, b: nat): nat {
    if a == 0 then b else if b == 0 then a else (a + b) % 2 + 2 * BitXor(a / 2, b / 2)
  }

  function BitAnd(a: nat, b: nat): (r: nat)
    ensures r <= b
  {
    if a == 0 || b == 0 then 0 else (a % 2) * (b % 2) + 2 * BitAnd(a / 2, b / 2)
  }

  /** A byte is mixed in as the signed character it is: from 128 on its sign fills the upper bits. */
  function Signed(b: Byte): nat {
    if b >= 128 then b + 0xFFFF_FF00 else b
  }

  function Mix(h: nat, b: Byte): nat {
    BitXor(h * 16777619 % WORD, Signed(b)) % WORD
  }

  function Hash(s: Bytes): (h: nat)
    ensures h < WORD
  {
    if s == [] then 0 else Mix(Hash(s[..|s| - 1]), s[|s| - 1])
  }

  method ComputeHash(s: Bytes) returns (i: nat)
    ensures i == Hash(s)
  {
    hide Mix;
    i := 0;
    for n := 0 to |s|
      invariant i == Hash(s[..n])
    {
      assert s[..n + 1][..n] == s[..n];
      i := Mix(i, s[n]);
    }
    assert s[..|s|] == s;
  }

  /** The bucket of a hash value in a table of `n` buckets, a power of two or not. */
  function Bucket(h: nat, n: nat): (b: nat)
    requires n > 0
    ensures b < n
  {
    BitAnd(h, n - 1)
  }

  /** In a table whose size is a power of two the bucket is the remainder. */
  lemma {:induction false} BucketOfPower(h: nat, k: nat)
    ensures Power(k) > 0 && Bucket(h, Power(k)) == h % Power(k)
    decreases k
  {
    hide BitAnd;
    if k == 0 {
      AndZero(h);
    } else {
      BucketOfPower(h / 2, k - 1);
      HalveMask(h, Power(k - 1));
    }
  }

  lemma AndZero(h: nat)
    ensures BitAnd(h, 0) == 0
  {
  }

  /** The hash of one byte is the byte as a signed character. */
  lemma HashOfOne(b: Byte)
    ensures Hash([b]) == Signed(b) && Hash([]) == 0
  {
    assert [b][..0] == [];
    assert BitXor(0, Signed(b)) == Signed(b);
  }

  /** A key without a zero byte, of at most one byte. */
  function KeyOf(b: Byte): Bytes {
    if b == 0 then [] else [b]
  }

  /** So in a table of up to 256 buckets, four times what the largest of the shell's have, each is the bucket of some
      key. */
  lemma EveryBucketIsReached(k: nat, b: nat)
    requires k <= 8 && b < Power(k)
    ensures b < 256 && Bucket(Hash(KeyOf(b)), Power(k)) == b
  {
    hide Hash, Bucket, Power, BitAnd, BitXor;
    PowersUpTo(k);
    HashOfOne(b);
    BucketOfPower(Hash(KeyOf(b)), k);
    if b < 128 {
      DivModUnique(b, 0, Power(k), b);
    } else {
      DivModUnique(Signed(b), 0xFF_FFFF, 256, b);
    }
  }

  lemma {:induction false} PowersUpTo(k: nat)
    requires k <= 8
    ensures if k == 8 then Power(k) == 256 else Power(k) <= 128
  {
    assert Power(7) == 2 * Power(6) == 4 * Power(5) == 8 * Power(4) == 16 * Power(3) == 32 * Power(2) == 64 * Power(1);
    if k < 8 {
      Grows(k, 7);
    }
  }

  lemma {:induction false} Grows(j: nat, k: nat)
    requires j <= k
    ensures Power(j) <= Power(k)
  {
    if j < k {
      Grows(j, k - 1);
    }
  }

  function Power(k: nat): (n: nat)
    ensures n > 0
  {
    if k == 0 then 1 else 2 * Power(k - 1)
  }

  lemma HalveMask(h: nat, n: nat)
    requires n > 0 && BitAnd(h / 2, n - 1) == h / 2 % n
    ensures BitAnd(h, 2 * n - 1) == h % (2 * n)
  {
    hide BitAnd;
    DoubledRemainder(h, n, h / 2 / n, h / 2 % n);
    AndOdd(h, n - 1, 2 * n - 1);
  }

  lemma AndOdd(h: nat, m: nat, odd: nat)
    requires odd == 2 * m + 1
    ensures BitAnd(h, odd) == h % 2 + 2 * BitAnd(h / 2, m)
  {
    assert odd / 2 == m && odd % 2 == 1;
  }

  lemma DoubledRemainder(h: nat, n: nat, q: nat, r: nat)
    requires n > 0 && q == h / 2 / n && r == h / 2 % n
    ensures h % (2 * n) == h % 2 + 2 * r
  {
    assert h / 2 == q * n + r;
    assert q * (2 * n) == 2 * (q * n);
    DivModUnique(h, q, 2 * n, h % 2 + 2 * r);
  }
}
