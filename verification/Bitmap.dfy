/** Bitmaps: bit i of a block is bit (i mod 8) of its byte (i div 8). */
module Bitmap {
  import opened Bytes

  /** 1 << k */
  function Mask(k: nat): (m: nat)
    ensures m > 0
  {
    if k == 0 then 1 else 2 * Mask(k - 1)
  }

  /** (x & (1 << k)) != 0 */
  predicate ByteBit(x: nat, k: nat)
  {
    if k == 0 then x % 2 == 1 else ByteBit(x / 2, k - 1)
  }

  /** Setting a clear bit k adds the mask, clearing a set one subtracts it; no other bit moves. */
  lemma {:induction false} FlipByteBit(x: nat, width: nat, k: nat, j: nat)
    requires x < Mask(width) && k < width
    ensures !ByteBit(x, k) ==> x + Mask(k) < Mask(width) && ByteBit(x + Mask(k), j) == (j == k || ByteBit(x, j))
    ensures ByteBit(x, k) ==> Mask(k) <= x && ByteBit(x - Mask(k), j) == (j != k && ByteBit(x, j))
  {
    if k > 0 {
      FlipByteBit(x / 2, width - 1, k - 1, if j == 0 then 0 else j - 1);
      assert (x + Mask(k)) / 2 == x / 2 + Mask(k - 1);
      assert ByteBit(x, k) ==> (x - Mask(k)) / 2 == x / 2 - Mask(k - 1);
    }
  }

  predicate Bit(b: Block, i: nat)
    requires i < 4096
  {
    ByteBit(b[i / 8], i % 8)
  }

  lemma {:induction false} ByteBitPower(x: nat, k: nat)
    ensures ByteBit(x, k) <==> x / Mask(k) % 2 == 1
  {
    if k > 0 {
      ByteBitPower(x / 2, k - 1);
      DivTwice(x, Mask(k - 1));
    }
  }

  lemma DivTwice(x: nat, m: nat)
    requires m > 0
    ensures x / 2 / m == x / (2 * m)
  {
    var q, r := x / 2 / m, x / 2 % m;
    assert x / 2 == q * m + r;
    assert x == 2 * (q * m + r) + x % 2;
    assert x == q * (2 * m) + (2 * r + x % 2) && 2 * r + x % 2 < 2 * m;
    QuotientIs(x, 2 * m, q, 2 * r + x % 2);
  }

  lemma QuotientIs(x: nat, m: nat, q: nat, r: nat)
    requires m > 0 && x == q * m + r && r < m
    ensures x / m == q
  {
    var d := x / m - q;
    assert x == x / m * m + x % m;
    assert d * m == x / m * m - q * m;
    assert d * m == r - x % m;
    Multiple(d, m);
  }

  lemma Multiple(d: int, m: nat)
    ensures d >= 1 ==> d * m >= m
    ensures d <= -1 ==> d * m + m <= 0
  {
    if d >= 1 {
      assert (d - 1) * m >= 0;
    } else if d <= -1 {
      assert (-1 - d) * m >= 0;
    }
  }

  /** Bit i of a bitmap is the bit of value 2 to the i mod 8 in byte i / 8. */
  lemma BitPower(b: Block, i: nat)
    requires i < 4096
    ensures var x: nat := b[i / 8]; Bit(b, i) <==> x / Mask(i % 8) % 2 == 1
  {
    ByteBitPower(b[i / 8], i % 8);
  }

  function WithBit(x: byte, k: nat, value: bool): (y: byte)
    requires k < 8
    ensures forall j: nat :: j < 8 ==> ByteBit(y, j) == if j == k then value else ByteBit(x, j)
  {
    assert Mask(8) == 256;
    assert (!ByteBit(x, k) ==> x + Mask(k) < 256) && (ByteBit(x, k) ==> Mask(k) <= x) by {
      FlipByteBit(x, 8, k, k);
    }
    assert forall j: nat :: j < 8 ==>
      (ByteBit(if ByteBit(x, k) then x - Mask(k) else x + Mask(k), j) <==> ((j == k) != ByteBit(x, j))) by {
      forall j: nat | j < 8 { FlipByteBit(x, 8, k, j); }
    }
    var n: int := x;
    if ByteBit(x, k) == value then x else if value then n + Mask(k) else n - Mask(k)
  }

  /** set_bitmap_bit: out-of-range bits are ignored. */
  function SetBit(b: Block, i: nat, value: bool): (r: Block)
    ensures forall j: nat :: j < 4096 ==> Bit(r, j) == if i < 512 && j == i then value else Bit(b, j)
  {
    if i >= 512 then b
    else
      var r := b[i / 8 := WithBit(b[i / 8], i % 8, value)];
      assert forall j: nat :: j < 4096 && j / 8 == i / 8 && j % 8 == i % 8 ==> j == i;
      r
  }

  lemma SetSame(b: Block, i: nat)
    requires i < 512 && !Bit(b, i)
    ensures SetBit(b, i, false) == b
  {
    assert b[i / 8 := b[i / 8]] == b;
  }

  /** Number of clear bits among the first n. */
  function CountClear(b: Block, n: nat): (c: nat)
    requires n <= 512
    ensures c <= n
  {
    if n == 0 then 0 else CountClear(b, n - 1) + if Bit(b, n - 1) then 0 else 1
  }

  /** Flipping one bit moves the count by one. */
  lemma {:induction false} CountAfterSet(b: Block, i: nat, value: bool, n: nat)
    requires n <= 512 && i < 512
    ensures CountClear(SetBit(b, i, value), n) ==
            CountClear(b, n) + if i >= n || Bit(b, i) == value then 0 else if value then -1 else 1
  {
    if n > 0 {
      CountAfterSet(b, i, value, n - 1);
    }
  }

  /** The counter reaches zero exactly when every bit is set. */
  lemma {:induction false} CountZero(b: Block, n: nat)
    requires n <= 512
    ensures CountClear(b, n) == 0 <==> forall i: nat :: i < n ==> Bit(b, i)
  {
    if n > 0 {
      CountZero(b, n - 1);
    }
  }
}
