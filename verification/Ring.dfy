/** Index arithmetic of the ring: masking by a power of two is reduction modulo the capacity. */
module Rings {
  import opened Machine

  function Pow2(k: nat): nat {
    if k == 0 then 1 else 2 * Pow2(k - 1)
  }

  /** Bitwise and. */
  function And(x: nat, y: nat): nat {
    if x == 0 || y == 0 then 0 else (x % 2) * (y % 2) + 2 * And(x / 2, y / 2)
  }

  lemma {:induction false} AndMask(x: nat, k: nat)
    ensures Pow2(k) >= 1 && And(x, Pow2(k) - 1) == x % Pow2(k)
  {
    if k > 0 {
      AndMask(x / 2, k - 1);
      var p := Pow2(k - 1);
      assert Pow2(k) == 2 * p && (2 * p - 1) / 2 == p - 1 && (2 * p - 1) % 2 == 1;
      HalfMod(x, p);
      if x == 0 { AndMask(0, k - 1); }
    }
  }

  lemma HalfMod(x: nat, p: nat)
    requires p >= 1
    ensures x % (2 * p) == x % 2 + 2 * (x / 2 % p)
  {
    var q, r := x / 2 / p, x / 2 % p;
    assert x / 2 == q * p + r;
    assert x == (2 * p) * q + (x % 2 + 2 * r) by {
      assert 2 * (q * p) == (2 * p) * q;
    }
    ModUnique(x, 2 * p, q, x % 2 + 2 * r);
  }

  lemma ModUnique(x: int, c: nat, q: int, r: int)
    requires c >= 1 && x == c * q + r && 0 <= r < c
    ensures x % c == r
  {
    var q', r' := x / c, x % c;
    assert x == c * q' + r';
    assert c * (q - q') == r' - r by { assert c * (q - q') == c * q - c * q'; }
    if q != q' {
      MulAtLeast(c, q - q');
    }
  }

  lemma {:induction false} MulAtLeast(c: int, d: int)
    requires c >= 1 && d != 0
    ensures c * d >= c || c * d <= -c
    ensures d >= 1 ==> c * d >= c
    decreases if d < 0 then 1 - d else d
  {
    if d > 1 {
      MulAtLeast(c, d - 1);
      assert c * d == c * (d - 1) + c;
    } else if d < 0 {
      MulAtLeast(c, -d);
      assert c * d == -(c * -d);
    }
  }

  /** Positions less than a lap apart share a slot only if they are equal. */
  lemma SlotsDistinct(a: nat, b: nat, c: nat)
    requires c >= 1 && b <= a < b + c
    ensures a % c == b % c <==> a == b
  {
    if a % c == b % c {
      var d := a / c - b / c;
      assert a - b == c * d by {
        assert a == c * (a / c) + a % c && b == c * (b / c) + b % c;
        assert c * (a / c) - c * (b / c) == c * d;
      }
      if d != 0 { MulAtLeast(c, d); }
    }
  }

  /** The successor under the mask is the successor modulo the capacity. */
  lemma NextSlot(n: nat, c: nat)
    requires c >= 1
    ensures (n % c + 1) % c == (n + 1) % c
  {
    var q := n / c;
    assert n == c * q + n % c;
    if n % c + 1 < c {
      ModUnique(n + 1, c, q, n % c + 1);
      ModUnique(n % c + 1, c, 0, n % c + 1);
    } else {
      assert n + 1 == c * (q + 1) + 0 by { assert c * (q + 1) == c * q + c; }
      ModUnique(n + 1, c, q + 1, 0);
      ModUnique(n % c + 1, c, 1, 0);
    }
  }

  lemma {:induction false} Pow2Divides(k: nat, n: nat)
    requires k <= n
    ensures Pow2(n) == Pow2(k) * Pow2(n - k) && Pow2(k) >= 1 && Pow2(n - k) >= 1
    decreases n - k
  {
    if k < n {
      Pow2Divides(k, n - 1);
      assert Pow2(n) == 2 * (Pow2(k) * Pow2(n - 1 - k)) == Pow2(k) * (2 * Pow2(n - 1 - k));
    } else {
      AndMask(0, k);
    }
  }

  lemma ModOfMod(y: int, c: nat, m: nat)
    requires c >= 1 && m >= 1 && c * m >= 1
    ensures y % (c * m) % c == y % c
  {
    var w := c * m;
    var lap, x := y / w, y % w;
    var q, r := x / c, x % c;
    assert y == c * (m * lap + q) + r by {
      assert y == w * lap + x && x == c * q + r;
      assert w * lap == c * (m * lap);
      assert c * (m * lap + q) == c * (m * lap) + c * q;
    }
    ModUnique(y, c, m * lap + q, r);
  }

  lemma Distance(pushes: nat, pops: nat, c: nat)
    requires c >= 1 && pops <= pushes < pops + c
    ensures (pushes % c - pops % c) % c == pushes - pops
  {
    var p, q := pushes / c, pops / c;
    assert pushes == c * p + pushes % c && pops == c * q + pops % c;
    assert c * (q - p) == c * q - c * p;
    ModUnique(pushes % c - pops % c, c, q - p, pushes - pops);
  }

  /** Wrapping subtraction of two indices, masked, is their distance around the ring. */
  lemma MaskedDistance(pushes: nat, pops: nat, k: nat, bits: nat)
    requires k <= bits && pops <= pushes < pops + Pow2(k)
    ensures Pow2(k) >= 1 && Pow2(bits) >= 1
    ensures And((pushes % Pow2(k) - pops % Pow2(k)) % Pow2(bits), Pow2(k) - 1) == pushes - pops
  {
    Pow2Divides(k, bits);
    AndMask(0, bits);
    var c := Pow2(k);
    var y := pushes % c - pops % c;
    AndMask(y % Pow2(bits), k);
    ModOfMod(y, c, Pow2(bits - k));
    Distance(pushes, pops, c);
  }

  lemma Pow2At64()
    ensures Pow2(64) == TWO_64
  {
    assert Pow2(8) == 0x100;
    Pow2Divides(8, 16);
    Pow2Divides(16, 32);
    Pow2Divides(32, 64);
  }
}
