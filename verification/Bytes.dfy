/** Fixed-width integers as bytes, in both byte orders. */
module Bytes {
  import opened Numbers

  function Pow256(w: nat): (p: nat)
    ensures p >= 1
  {
    if w == 0 then 1 else 256 * Pow256(w - 1)
  }

  /** The `w` big-endian bytes of `n`. */
  function ToBE(n: nat, w: nat): (s: seq<u8>)
    requires n < Pow256(w)
    ensures |s| == w
  {
    if w == 0 then [] else ToBE(n / 256, w - 1) + [n % 256]
  }

  function FromBE(s: seq<u8>): (n: nat)
    ensures n < Pow256(|s|)
  {
    if |s| == 0 then 0 else FromBE(s[..|s| - 1]) * 256 + s[|s| - 1]
  }

  lemma ShiftByByte(q: nat, r: nat)
    requires r < 256
    ensures (q * 256 + r) / 256 == q && (q * 256 + r) % 256 == r
  {
  }

  lemma UniqueQuotient(d: nat, q: nat, r: nat, q': nat, r': nat)
    requires r < d && r' < d && q * d + r == q' * d + r'
    ensures q == q'
  {
    Distribute(q, q', d);
    Distribute(q', q, d);
    if q < q' {
      ProductAtLeast(q' - q, d);
    } else if q' < q {
      ProductAtLeast(q - q', d);
    }
  }

  lemma Distribute(a: nat, b: nat, d: nat)
    ensures (a - b) * d == a * d - b * d
  {
  }

  lemma Quotient(n: nat, d: nat, q: nat, r: nat)
    requires r < d && n == q * d + r
    ensures n / d == q
  {
    assert n == n / d * d + n % d;
    UniqueQuotient(d, n / d, n % d, q, r);
  }

  lemma DivideTwice(n: nat, p: nat)
    requires p >= 1
    ensures (n / 256) / p == n / (256 * p)
  {
    var m := n / 256;
    var q, r := m / p, m % p;
    assert m == q * p + r;
    Scale(q, p, r);
    Quotient(n, 256 * p, q, 256 * r + n % 256);
  }

  lemma Scale(q: nat, p: nat, r: nat)
    ensures 256 * (q * p + r) == q * (256 * p) + 256 * r
  {
  }

  /** Byte `i` of the big-endian form, counted from the most significant one. */
  lemma {:induction false} BEByte(n: nat, w: nat, i: nat)
    requires n < Pow256(w) && i < w
    ensures ToBE(n, w)[i] == n / Pow256(w - 1 - i) % 256
  {
    if i < w - 1 {
      BEByte(n / 256, w - 1, i);
      DivideTwice(n, Pow256(w - 2 - i));
    }
  }

  lemma {:induction false} WiderPow256(w: nat, more: nat)
    ensures Pow256(w) <= Pow256(w + more)
  {
    if more > 0 {
      WiderPow256(w, more - 1);
    }
  }

  /** A wider big-endian form has zero bytes in front. */
  lemma {:induction false} BEWider(n: nat, w: nat, more: nat, zeros: seq<u8>)
    requires n < Pow256(w) && |zeros| == more && forall i :: 0 <= i < more ==> zeros[i] == 0
    ensures n < Pow256(w + more) && ToBE(n, w + more) == zeros + ToBE(n, w)
    decreases w
  {
    WiderPow256(w, more);
    if w == 0 {
      ZeroBE(more, zeros);
      assert zeros + [] == zeros;
    } else {
      BEWider(n / 256, w - 1, more, zeros);
      assert zeros + (ToBE(n / 256, w - 1) + [n % 256]) == (zeros + ToBE(n / 256, w - 1)) + [n % 256];
    }
  }

  lemma {:induction false} ZeroBE(w: nat, zeros: seq<u8>)
    requires |zeros| == w && forall i :: 0 <= i < w ==> zeros[i] == 0
    ensures ToBE(0, w) == zeros
  {
    if w > 0 {
      ZeroBE(w - 1, zeros[..w - 1]);
      assert zeros == zeros[..w - 1] + [0];
    }
  }

  lemma {:induction false} BERoundTrip(n: nat, w: nat)
    requires n < Pow256(w)
    ensures FromBE(ToBE(n, w)) == n
  {
    if w > 0 {
      BERoundTrip(n / 256, w - 1);
      assert ToBE(n, w)[..w - 1] == ToBE(n / 256, w - 1);
    }
  }

  lemma {:induction false} BEIsOnto(s: seq<u8>)
    ensures ToBE(FromBE(s), |s|) == s
  {
    if |s| > 0 {
      BEIsOnto(s[..|s| - 1]);
      ShiftByByte(FromBE(s[..|s| - 1]), s[|s| - 1]);
      assert s == s[..|s| - 1] + [s[|s| - 1]];
    }
  }

  /** The `w` little-endian bytes of `n`. */
  function ToLE(n: nat, w: nat): (s: seq<u8>)
    requires n < Pow256(w)
    ensures |s| == w
  {
    if w == 0 then [] else [n % 256] + ToLE(n / 256, w - 1)
  }

  function FromLE(s: seq<u8>): (n: nat)
    ensures n < Pow256(|s|)
  {
    if |s| == 0 then 0 else FromLE(s[1..]) * 256 + s[0]
  }

  /** Byte `i` of the little-endian form, counted from the least significant one. */
  lemma {:induction false} LEByte(n: nat, w: nat, i: nat)
    requires n < Pow256(w) && i < w
    ensures ToLE(n, w)[i] == n / Pow256(i) % 256
  {
    if i > 0 {
      LEByte(n / 256, w - 1, i - 1);
      DivideTwice(n, Pow256(i - 1));
    }
  }

  lemma {:induction false} LERoundTrip(n: nat, w: nat)
    requires n < Pow256(w)
    ensures FromLE(ToLE(n, w)) == n
  {
    if w > 0 {
      LERoundTrip(n / 256, w - 1);
      assert ToLE(n, w)[1..] == ToLE(n / 256, w - 1);
    }
  }

  lemma {:induction false} LEIsOnto(s: seq<u8>)
    ensures ToLE(FromLE(s), |s|) == s
  {
    if |s| > 0 {
      LEIsOnto(s[1..]);
      ShiftByByte(FromLE(s[1..]), s[0]);
      assert s == [s[0]] + s[1..];
    }
  }

  lemma Widths()
    ensures Pow256(4) == U32_MAX + 1
  {
    assert Pow256(1) == 256;
    assert Pow256(2) == 0x1_0000;
  }
}
