/** Bytes, and unsigned integers of a fixed width in little- and big-endian order. */
module Bytes {
  type byte = x: int | 0 <= x < 256

  type bytes = seq<byte>

  /** 256 to the power `k`. */
  function Power256(k: nat): (r: nat)
    ensures r >= 1
  {
    if k == 0 then 1 else 256 * Power256(k - 1)
  }

  lemma Widths()
    ensures Power256(1) == 0x100
    ensures Power256(2) == 0x1_0000
    ensures Power256(4) == 0x1_0000_0000
    ensures Power256(8) == 0x1_0000_0000_0000_0000
  {
    assert Power256(2) == 256 * Power256(1);
    assert Power256(3) == 256 * Power256(2);
    assert Power256(4) == 256 * Power256(3);
    assert Power256(5) == 256 * Power256(4);
    assert Power256(6) == 256 * Power256(5);
    assert Power256(7) == 256 * Power256(6);
  }

  /** The low `k` bytes of `n`, least significant first. */
  function LittleEndian(n: nat, k: nat): (r: bytes)
    ensures |r| == k
  {
    if k == 0 then [] else [n % 256] + LittleEndian(n / 256, k - 1)
  }

  function FromLittleEndian(b: bytes): nat
  {
    if b == [] then 0 else b[0] + 256 * FromLittleEndian(b[1..])
  }

  lemma {:induction false} LittleEndianDecodes(n: nat, k: nat)
    requires n < Power256(k)
    ensures FromLittleEndian(LittleEndian(n, k)) == n
  {
    if k > 0 {
      LittleEndianDecodes(n / 256, k - 1);
      assert LittleEndian(n, k)[1..] == LittleEndian(n / 256, k - 1);
    }
  }

  lemma {:induction false} LittleEndianEncodes(b: bytes)
    ensures FromLittleEndian(b) < Power256(|b|)
    ensures LittleEndian(FromLittleEndian(b), |b|) == b
  {
    if b != [] {
      LittleEndianEncodes(b[1..]);
      var n := FromLittleEndian(b[1..]);
      assert (b[0] + 256 * n) % 256 == b[0] && (b[0] + 256 * n) / 256 == n;
    }
  }

  /** The low `k` bytes of `n`, most significant first. */
  function BigEndian(n: nat, k: nat): (r: bytes)
    ensures |r| == k
  {
    if k == 0 then [] else BigEndian(n / 256, k - 1) + [n % 256]
  }

  function FromBigEndian(b: bytes): nat
  {
    if b == [] then 0 else 256 * FromBigEndian(b[..|b| - 1]) + b[|b| - 1]
  }

  lemma {:induction false} BigEndianDecodes(n: nat, k: nat)
    requires n < Power256(k)
    ensures FromBigEndian(BigEndian(n, k)) == n
  {
    if k > 0 {
      BigEndianDecodes(n / 256, k - 1);
      assert BigEndian(n, k)[..k - 1] == BigEndian(n / 256, k - 1);
    }
  }

  lemma {:induction false} BigEndianEncodes(b: bytes)
    ensures FromBigEndian(b) < Power256(|b|)
    ensures BigEndian(FromBigEndian(b), |b|) == b
  {
    if b != [] {
      var init, last := b[..|b| - 1], b[|b| - 1];
      BigEndianEncodes(init);
      var n := FromBigEndian(init);
      assert (256 * n + last) % 256 == last && (256 * n + last) / 256 == n;
      assert b == init + [last];
    }
  }

  // --- single bytes ----------------------------------------------------------------------

  lemma AtLeastFactor(x: nat, y: nat)
    requires y > 0
    ensures x <= x * y
  {}

  lemma DivMod(q: nat, b: nat, r: nat)
    requires r < b
    ensures (q * b + r) / b == q && (q * b + r) % b == r
  {
    var x := q * b + r;
    assert x == (x / b) * b + x % b;
    SameQuotient(q, x / b, b, r, x % b);
  }

  lemma SameQuotient(q: nat, q': nat, b: nat, r: nat, r': nat)
    requires r < b && r' < b && q * b + r == q' * b + r'
    ensures q == q' && r == r'
  {
    if q < q' {
      assert q' * b == q * b + (q' - q) * b;
      AtLeastFactor(b, q' - q);
    } else if q' < q {
      assert q * b == q' * b + (q - q') * b;
      AtLeastFactor(b, q - q');
    }
  }

  lemma ShiftBelow(x: nat, limit: nat, b: nat, r: nat)
    requires x < limit && r < b
    ensures x * b + r < b * limit
  {
    assert (x + 1) * b <= limit * b by {
      assert limit * b == (x + 1) * b + (limit - x - 1) * b;
    }
  }

  lemma DivDiv(x: nat, a: nat, b: nat)
    requires a > 0 && b > 0
    ensures a * b > 0 && (x / a) / b == x / (a * b)
  {
    var q, r := x / a, x % a;
    var q', r' := q / b, q % b;
    assert x == (q' * b + r') * a + r == q' * (a * b) + (r' * a + r) by {
      assert q' * b * a == q' * (a * b);
    }
    ShiftBelow(r', b, a, r);
    DivMod(q', a * b, r' * a + r);
  }

  /** The byte at each position: the lowest first in little-endian order, the highest in big-endian order. */
  lemma {:induction false} ByteAt(n: nat, k: nat, i: nat)
    requires i < k
    ensures LittleEndian(n, k)[i] == n / Power256(i) % 256
    ensures BigEndian(n, k)[k - 1 - i] == n / Power256(i) % 256
  {
    if i > 0 {
      ByteAt(n / 256, k - 1, i - 1);
      DivDiv(n, 256, Power256(i - 1));
    } else {
      assert n / 1 == n;
    }
  }

  lemma LittleEndian1(n: nat)
    requires n < 0x100
    ensures LittleEndian(n, 1) == [n]
  {
    assert LittleEndian(n / 256, 0) == [];
  }

  lemma LittleEndian2(n: nat)
    requires n < 0x1_0000
    ensures LittleEndian(n, 2) == [n % 256, n / 256]
  {
    LittleEndian1(n / 256);
  }

  lemma LittleEndian4(n: nat)
    requires n < 0x1_0000_0000
    ensures LittleEndian(n, 4) == [n % 256, n / 256 % 256, n / 0x1_0000 % 256, n / 0x100_0000]
  {
    LittleEndian2(n / 0x1_0000);
    assert LittleEndian(n / 256, 3) == [n / 256 % 256] + LittleEndian(n / 0x1_0000, 2);
  }

  /** Byte strings reversed, as transaction ids are for display. */
  function Reverse(b: bytes): (r: bytes)
    ensures |r| == |b|
    ensures forall i :: 0 <= i < |b| ==> r[i] == b[|b| - 1 - i]
  {
    if b == [] then [] else Reverse(b[1..]) + [b[0]]
  }

  lemma ReverseInjective(a: bytes, b: bytes)
    requires Reverse(a) == Reverse(b)
    ensures a == b
  {
    assert |a| == |b|;
    forall i | 0 <= i < |a| ensures a[i] == b[i] {
      assert Reverse(a)[|a| - 1 - i] == a[i];
      assert Reverse(b)[|b| - 1 - i] == b[i];
    }
  }
}
