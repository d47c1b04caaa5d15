/**
 * The proof-of-work test of a challenge, `_digest_has_leading_zero_bits`: whole
 * bytes by division, the rest by a mask. Proved equal to a bound on the digest
 * read as one big-endian number.
 */
module LeadingZeros {

  type Byte = b: int | 0 <= b < 256
  type Digest = seq<Byte>

  /** `0xFF << (8 - remainder) & 0xFF`; the shift binds tighter than the and, and
      its operand is wider than a byte. */
  function Mask(remainder: nat): bv16
    requires 0 < remainder < 8
  {
    (0xFF as bv16 << (8 - remainder)) & 0xFF
  }

  /** The function as written. */
  predicate HasLeadingZeroBits(digest: Digest, bits: int) {
    if bits <= 0 then true
    else
      var fullBytes, remainder := bits / 8, bits % 8;
      if |digest| < fullBytes + (if remainder != 0 then 1 else 0) then false
      else if exists i | 0 <= i < fullBytes :: digest[i] != 0 then false
      else if remainder == 0 then true
      else (digest[fullBytes] as bv16) & Mask(remainder) == 0
  }

  function Pow2(n: nat): (p: nat)
    ensures p > 0
  {
    if n == 0 then 1 else 2 * Pow2(n - 1)
  }

  /** The digest as a big-endian number. */
  function Value(digest: Digest): nat {
    if digest == [] then 0 else digest[0] * Pow2(8 * (|digest| - 1)) + Value(digest[1..])
  }

  lemma {:induction false} Pow2Adds(m: nat, n: nat)
    ensures Pow2(m + n) == Pow2(m) * Pow2(n)
  {
    if m > 0 {
      Pow2Adds(m - 1, n);
      assert Pow2(m + n) == 2 * (Pow2(m - 1) * Pow2(n));
    }
  }

  lemma {:induction false} Pow2Grows(m: nat, n: nat)
    requires m <= n
    ensures Pow2(m) <= Pow2(n)
  {
    if m < n {
      Pow2Grows(m, n - 1);
    }
  }

  lemma {:induction false} ValueFits(digest: Digest)
    ensures Value(digest) < Pow2(8 * |digest|)
  {
    if digest != [] {
      ValueFits(digest[1..]);
      HeadBounds(digest, 8);
      assert Pow2(8) == 256;
    }
  }

  /** A number is below a power no smaller than its tail's exactly when its head is
      below that power's share. */
  lemma HeadBounds(digest: Digest, n: nat)
    requires digest != [] && n <= 8
    requires Value(digest[1..]) < Pow2(8 * (|digest| - 1))
    ensures Value(digest) < Pow2(8 * (|digest| - 1) + n) <==> digest[0] < Pow2(n)
  {
    var low, head, tail := Pow2(8 * (|digest| - 1)), digest[0], Value(digest[1..]);
    Pow2Adds(8 * (|digest| - 1), n);
    Scale(head, tail, low, Pow2(n));
  }

  lemma Scale(head: nat, tail: nat, low: nat, bound: nat)
    requires tail < low
    ensures head * low + tail < low * bound <==> head < bound
  {
    if head < bound {
      assert (head + 1) * low <= bound * low;
    } else {
      assert head * low >= bound * low;
    }
  }

  /** Nothing under the mask means below the mask's lowest bit. */
  lemma MaskBits(v: bv16, remainder: nat)
    requires v < 256 && 0 < remainder < 8
    ensures v & Mask(remainder) == 0 <==> v < (1 as bv16 << (8 - remainder))
  {
  }

  lemma BitsAsNumber(b: Byte, n: nat)
    requires n < 8
    ensures (b as bv16) < 256
    ensures (b as bv16) < (1 as bv16 << n) <==> b < Pow2(n)
  {
    Powers();
    match n
    case 0 => assert 1 as bv16 << n == 1;
    case 1 => assert 1 as bv16 << n == 2;
    case 2 => assert 1 as bv16 << n == 4;
    case 3 => assert 1 as bv16 << n == 8;
    case 4 => assert 1 as bv16 << n == 16;
    case 5 => assert 1 as bv16 << n == 32;
    case 6 => assert 1 as bv16 << n == 64;
    case 7 => assert 1 as bv16 << n == 128;
  }

  lemma Powers()
    ensures Pow2(0) == 1 && Pow2(1) == 2 && Pow2(2) == 4 && Pow2(3) == 8
    ensures Pow2(4) == 16 && Pow2(5) == 32 && Pow2(6) == 64 && Pow2(7) == 128
  {
    assert Pow2(3) == 8;
    assert Pow2(5) == 32;
  }

  /** A whole zero byte can be dropped from both the digest and the bit count. */
  lemma DropByte(digest: Digest, bits: int)
    requires bits >= 8
    ensures HasLeadingZeroBits(digest, bits)
            <==> (digest != [] && digest[0] == 0 && HasLeadingZeroBits(digest[1..], bits - 8))
  {
    var full := bits / 8;
    assert (bits - 8) / 8 == full - 1 && (bits - 8) % 8 == bits % 8;
    if digest != [] && full <= |digest| {
      var rest := digest[1..];
      if digest[0] == 0 && forall i | 0 <= i < full - 1 :: rest[i] == 0 {
        assert forall i | 0 <= i < full :: digest[i] == if i == 0 then 0 else rest[i - 1];
      } else if i :| 0 <= i < full - 1 && rest[i] != 0 {
        assert digest[i + 1] != 0;
      }
    }
  }

  lemma FewBits(digest: Digest, bits: int)
    requires digest != [] && 0 < bits < 8
    ensures HasLeadingZeroBits(digest, bits) <==> digest[0] < Pow2(8 - bits)
  {
    BitsAsNumber(digest[0], 8 - bits);
    MaskBits(digest[0] as bv16, bits);
  }

  /** What the test should mean. */
  predicate BelowBound(digest: Digest, bits: nat) {
    bits <= 8 * |digest| && Value(digest) < Pow2(8 * |digest| - bits)
  }

  lemma BoundDropsByte(digest: Digest, bits: nat)
    requires bits >= 8
    ensures BelowBound(digest, bits) <==> (digest != [] && digest[0] == 0 && BelowBound(digest[1..], bits - 8))
  {
    if digest != [] {
      ValueFits(digest[1..]);
      HeadBounds(digest, 0);
      assert 8 * |digest[1..]| - (bits - 8) == 8 * |digest| - bits;
      if bits <= 8 * |digest| {
        Pow2Grows(8 * |digest| - bits, 8 * (|digest| - 1));
      }
    }
  }

  /** The divmod-and-mask test is true iff the digest is long enough and, read as a
      big-endian number, below two to the number of bits left over. */
  lemma {:induction false} ZeroBitsAreABound(digest: Digest, bits: nat)
    ensures HasLeadingZeroBits(digest, bits)
            <==> (bits <= 8 * |digest| && Value(digest) < Pow2(8 * |digest| - bits))
    decreases bits
  {
    ValueFits(digest);
    if bits >= 8 {
      DropByte(digest, bits);
      BoundDropsByte(digest, bits);
      if digest != [] {
        ZeroBitsAreABound(digest[1..], bits - 8);
      }
      assert HasLeadingZeroBits(digest, bits) <==> BelowBound(digest, bits);
    } else if digest != [] && bits > 0 {
      FewBits(digest, bits);
      ValueFits(digest[1..]);
      HeadBounds(digest, 8 - bits);
    }
  }

  /** A digest accepted at one difficulty is accepted at every smaller one. */
  lemma EasierIsImplied(digest: Digest, bits: int, fewer: int)
    requires HasLeadingZeroBits(digest, bits) && fewer <= bits
    ensures HasLeadingZeroBits(digest, fewer)
  {
    if fewer > 0 {
      ZeroBitsAreABound(digest, bits);
      ZeroBitsAreABound(digest, fewer);
      Pow2Grows(8 * |digest| - bits, 8 * |digest| - fewer);
    }
  }
}
