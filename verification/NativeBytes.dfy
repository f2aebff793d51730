/** Numbers as they lie in memory, in the byte order of the host. */
module NativeBytes {
  import opened Bytecode

  /** The unsigned number whose bytes lie in memory as u. */
  function Native(u: seq<Byte>, littleEndian: bool): int {
    if u == [] then 0
    else if littleEndian then u[0] as int + 256 * Native(u[1..], littleEndian)
    else 256 * Native(u[..|u| - 1], littleEndian) + u[|u| - 1] as int
  }

  lemma {:induction false} NativeJoins(a: seq<Byte>, b: seq<Byte>, littleEndian: bool, half: nat)
    requires |a| == |b| && Power256(|a|) == half
    ensures Native(a + b, littleEndian) ==
            if littleEndian then Native(a, true) + half * Native(b, true) else half * Native(a, false) + Native(b, false)
  {
    if littleEndian {
      LittleJoins(a, b);
    } else {
      BigJoins(a, b);
    }
  }

  function Power256(n: nat): (p: nat)
    ensures p >= 1
  {
    if n == 0 then 1 else 256 * Power256(n - 1)
  }

  lemma {:induction false} LittleJoins(a: seq<Byte>, b: seq<Byte>)
    ensures Native(a + b, true) == Native(a, true) + Power256(|a|) * Native(b, true)
    decreases |a|
  {
    if a == [] {
      assert a + b == b;
    } else {
      assert (a + b)[1..] == a[1..] + b;
      LittleJoins(a[1..], b);
      Scale(Power256(|a| - 1), Native(b, true));
    }
  }

  lemma {:induction false} BigJoins(a: seq<Byte>, b: seq<Byte>)
    ensures Native(a + b, false) == Power256(|b|) * Native(a, false) + Native(b, false)
    decreases |b|
  {
    if b == [] {
      assert a + b == a;
    } else {
      assert (a + b)[..|a + b| - 1] == a + b[..|b| - 1];
      BigJoins(a, b[..|b| - 1]);
      Scale(Power256(|b| - 1), Native(a, false));
    }
  }

  lemma Scale(p: int, x: int)
    ensures 256 * (p * x) == (256 * p) * x
  {}

  /** The n bytes of x, truncated to them. */
  function Bytes(x: int, n: nat, littleEndian: bool): (u: seq<Byte>)
    ensures |u| == n
    decreases n
  {
    if n == 0 then []
    else if littleEndian then [x % 256] + Bytes(x / 256, n - 1, littleEndian)
    else Bytes(x / 256, n - 1, littleEndian) + [x % 256]
  }

  lemma DivideTwice(x: int, p: int)
    requires p > 0
    ensures x % (256 * p) == x % 256 + 256 * ((x / 256) % p)
  {
    var q, r := (x / 256) / p, (x / 256) % p;
    assert x == 256 * (x / 256) + x % 256 && x / 256 == p * q + r;
    assert x == (256 * p) * q + (256 * r + x % 256) by { Scale(p, q); }
    RemainderIs(x, 256 * p, q, 256 * r + x % 256);
  }

  lemma RemainderIs(x: int, d: int, q: int, r: int)
    requires x == d * q + r && 0 <= r < d
    ensures x % d == r
  {
    var k := x / d - q;
    assert d * (x / d) == d * q + d * k;
    Multiple(d, k);
  }

  lemma Multiple(d: int, k: int)
    requires d > 0
    ensures (k >= 1 ==> d * k >= d) && (k <= -1 ==> d * k <= -d)
  {}

  /** Reading back what was stored gives the value modulo 256^n. */
  lemma {:induction false} NativeOfBytes(x: int, n: nat, littleEndian: bool)
    ensures Native(Bytes(x, n, littleEndian), littleEndian) == x % Power256(n)
    decreases n
  {
    if n > 0 {
      var rest := Bytes(x / 256, n - 1, littleEndian);
      NativeOfBytes(x / 256, n - 1, littleEndian);
      DivideTwice(x, Power256(n - 1));
      assert ([x % 256] + rest)[1..] == rest;
      assert (rest + [x % 256])[..n - 1] == rest;
    }
  }

  lemma {:induction false} NativeOfZeros(u: seq<Byte>, littleEndian: bool)
    requires forall i :: 0 <= i < |u| ==> u[i] == 0
    ensures Native(u, littleEndian) == 0
    decreases |u|
  {
    if u != [] {
      NativeOfZeros(u[1..], littleEndian);
      NativeOfZeros(u[..|u| - 1], littleEndian);
    }
  }
}
