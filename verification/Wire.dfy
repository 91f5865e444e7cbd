/**
 Bytes, network-order integers and the byte-level vocabulary shared by the
 emitted C buffer writer and reader.
 */
module Wire {
  import opened Wrappers

  type byte = b: int | 0 <= b < 256

  type bytes = seq<byte>

  function Pow256(w: nat): (p: nat)
    ensures p >= 1
  {
    if w == 0 then 1 else 256 * Pow256(w - 1)
  }

  /** The low `w` bytes of `n`, most significant first: htons, htonl and os_put_value64. */
  function Big(n: nat, w: nat): (s: bytes)
    ensures |s| == w
  {
    if w == 0 then [] else Big(n / 256, w - 1) + [n % 256]
  }

  /** ntohs, ntohl and os_get_value64. */
  function FromBig(s: bytes): nat {
    if s == [] then 0 else FromBig(s[..|s| - 1]) * 256 + s[|s| - 1]
  }

  lemma {:induction false} FromBigBig(n: nat, w: nat)
    requires n < Pow256(w)
    ensures FromBig(Big(n, w)) == n
  {
    if w > 0 {
      FromBigBig(n / 256, w - 1);
      assert Big(n, w)[..w - 1] == Big(n / 256, w - 1);
    }
  }

  lemma {:induction false} BigFromBig(s: bytes)
    ensures FromBig(s) < Pow256(|s|)
    ensures Big(FromBig(s), |s|) == s
  {
    if s != [] {
      BigFromBig(s[..|s| - 1]);
    }
  }

  /** Byte `i` of the network form is the value shifted right by the bytes that follow it. */
  lemma {:induction false} BigAt(n: nat, w: nat, i: nat)
    requires i < w
    ensures Big(n, w)[i] == n / Pow256(w - 1 - i) % 256
  {
    if i < w - 1 {
      BigAt(n / 256, w - 1, i);
      DivDiv(n, Pow256(w - 2 - i));
    }
  }

  lemma DivDiv(n: nat, p: nat)
    requires p > 0
    ensures n / 256 / p == n / (256 * p)
  {
    var q, r := n / 256, n % 256;
    var a, b := q / p, q % p;
    assert n == 256 * q + r;
    assert q == p * a + b;
    assert n == (256 * p) * a + (256 * b + r);
    assert 256 * b + r < 256 * p;
    QuotientUnique(n, 256 * p, a, 256 * b + r);
  }

  lemma QuotientUnique(n: nat, d: nat, q: nat, r: nat)
    requires d > 0 && n == d * q + r && r < d
    ensures n / d == q
  {
    var x := n / d;
    assert 0 <= n - d * x < d;
    if x > q {
      Scaled(d, q, x);
    } else if x < q {
      Scaled(d, x, q);
    }
  }

  lemma Scaled(d: nat, lo: nat, hi: nat)
    requires lo < hi
    ensures d * hi >= d * lo + d
  {
    assert d * hi == d * lo + d * (hi - lo);
    assert d * (hi - lo) == d + d * (hi - lo - 1);
  }

  /** The loop of os_put_value64 writes the network form of its argument. */
  method PutValue64(value: nat) returns (data: bytes)
    requires value < Pow256(8)
    ensures data == Big(value, 8)
  {
    data := [];
    for i := 0 to 8
      invariant data == Big(value, 8)[..i]
    {
      BigAt(value, 8, i);
      data := data + [value / Pow256(7 - i) % 256];
    }
  }

  /** The loop of os_get_value64 reads it back; the shifts never lose a bit. */
  method GetValue64(data: bytes) returns (value: nat)
    requires |data| == 8
    ensures value == FromBig(data) && value < Pow256(8)
    ensures Big(value, 8) == data
  {
    value := 0;
    for i := 0 to 8
      invariant value == FromBig(data[..i])
    {
      assert data[..i + 1][..i] == data[..i];
      BigFromBig(data[..i + 1]);
      value := value * 256 + data[i];
    }
    assert data[..8] == data;
    BigFromBig(data);
  }

  /** `e` lies in `s` at offset `off`. */
  ghost predicate At(s: bytes, off: nat, e: bytes) {
    off + |e| <= |s| && s[off..off + |e|] == e
  }

  /** `s` ends inside the copy of `e` that starts at `off`. */
  ghost predicate CutAt(s: bytes, off: nat, e: bytes) {
    off <= |s| < off + |e| && s[off..] == e[..|s| - off]
  }

  lemma AtSplit(s: bytes, off: nat, a: bytes, b: bytes)
    requires At(s, off, a + b)
    ensures At(s, off, a) && At(s, off + |a|, b)
  {
    assert s[off..off + |a|] == (a + b)[..|a|];
    assert s[off + |a|..off + |a| + |b|] == (a + b)[|a|..];
  }

  lemma CutSplit(s: bytes, off: nat, a: bytes, b: bytes)
    requires CutAt(s, off, a + b)
    ensures CutAt(s, off, a) || (At(s, off, a) && CutAt(s, off + |a|, b))
  {
    var k := |s| - off;
    if k < |a| {
      assert (a + b)[..k] == a[..k];
    } else {
      assert s[off..off + |a|] == (a + b)[..k][..|a|] == a;
      assert s[off + |a|..] == (a + b)[..k][|a|..] == b[..k - |a|];
    }
  }

  function Join(a: Option<bytes>, b: Option<bytes>): Option<bytes> {
    if a.Some? && b.Some? then Some(a.value + b.value) else None
  }
}
