/** Bytes, little-endian integers and single-bit tests, as the wire code of every component uses them.
    Bit masks of the source are written arithmetically: `x & 0x7F` is `x % 0x80`, bit t of x is `Bit(x, t)`. */
module Bytes {

  type byte = x: int | 0 <= x < 256

  datatype Option<+T> = None | Some(value: T)

  function Pow256(n: nat): (p: nat)
    ensures p > 0
  {
    if n == 0 then 1 else 256 * Pow256(n - 1)
  }

  function Pow2(n: nat): (p: nat)
    ensures p > 0
  {
    if n == 0 then 1 else 2 * Pow2(n - 1)
  }

  lemma {:induction false} Pow2Add(m: nat, n: nat)
    ensures Pow2(m + n) == Pow2(m) * Pow2(n)
  {
    if m > 0 {
      Pow2Add(m - 1, n);
    }
  }

  /** The low `n` bytes of `v`, least significant first (`int.to_bytes(n, "little")` after a mask to n bytes). */
  function ToLE(v: nat, n: nat): (s: seq<byte>)
    ensures |s| == n
  {
    if n == 0 then [] else [v % 256] + ToLE(v / 256, n - 1)
  }

  function FromLE(s: seq<byte>): nat {
    if s == [] then 0 else s[0] + 256 * FromLE(s[1..])
  }

  lemma {:induction false} FromLEOfToLE(v: nat, n: nat)
    requires v < Pow256(n)
    ensures FromLE(ToLE(v, n)) == v
  {
    if n > 0 {
      assert ToLE(v, n)[1..] == ToLE(v / 256, n - 1);
      FromLEOfToLE(v / 256, n - 1);
    }
  }

  lemma {:induction false} ToLEOfFromLE(s: seq<byte>)
    ensures FromLE(s) < Pow256(|s|)
    ensures ToLE(FromLE(s), |s|) == s
  {
    if s != [] {
      ToLEOfFromLE(s[1..]);
      var m := FromLE(s[1..]);
      LowDigit(s[0], m);
      assert s == [s[0]] + s[1..];
    }
  }

  lemma LowDigit(b: byte, m: nat)
    ensures (b + 256 * m as int) % 256 == b && (b + 256 * m as int) / 256 == m
  {}

  lemma {:induction false} ToLETruncates(v: nat, n: nat)
    ensures FromLE(ToLE(v, n)) == v % Pow256(n)
  {
    if n > 0 {
      hide ToLE, FromLE;
      ToLETruncates(v / 256, n - 1);
      LowByteFirst(v, n);
      TruncatedStep(v, Pow256(n - 1));
    }
  }

  lemma LowByteFirst(v: nat, n: nat)
    requires n > 0
    ensures FromLE(ToLE(v, n)) == v % 256 + 256 * FromLE(ToLE(v / 256, n - 1))
  {
    assert ToLE(v, n)[1..] == ToLE(v / 256, n - 1);
  }

  lemma TruncatedStep(v: nat, p: nat)
    requires p > 0
    ensures v % (256 * p) == v % 256 + 256 * ((v / 256) % p)
  {
    var u := v / 256;
    var q, r := u / p, u % p;
    assert u == q * p + r;
    assert 256 * (q * p) == q * (256 * p);
    ModUnique(v, 256 * p, q, 256 * r + v % 256);
  }

  lemma ModUnique(v: int, m: int, q: int, r: int)
    requires 0 <= r < m && v == q * m + r
    ensures v / m == q && v % m == r
  {
    MulAtLeast(q - v / m, m);
  }

  lemma MulAtLeast(k: int, m: int)
    requires m > 0
    ensures k >= 1 ==> k * m >= m
    ensures k <= -1 ==> k * m <= -m
  {
    if k >= 1 {
      assert k * m == (k - 1) * m + m;
    } else if k <= -1 {
      assert k * m == -((-k - 1) * m) - m;
    }
  }

  /** `v >> i`. */
  function Shr(v: nat, i: nat): nat {
    if i == 0 then v else Shr(v / 2, i - 1)
  }

  /** Bit `i` of `v`. */
  function Bit(v: nat, i: nat): (b: nat)
    ensures b < 2
  {
    Shr(v, i) % 2
  }

  lemma {:induction false} ShrStep(v: nat, i: nat)
    ensures Shr(v, i + 1) == Shr(v, i) / 2
  {
    if i > 0 {
      ShrStep(v / 2, i - 1);
    }
  }

  lemma {:induction false} ShrOfSmall(v: nat, i: nat)
    requires v < Pow2(i)
    ensures Shr(v, i) == 0
  {
    if i > 0 {
      ShrOfSmall(v / 2, i - 1);
    }
  }

  /** Python's clamping slice `s[a:b]`. */
  function Slice<T>(s: seq<T>, a: nat, b: nat): (r: seq<T>)
    ensures |r| == if a >= b || a >= |s| then 0 else (if b < |s| then b else |s|) - a
  {
    if a >= b || a >= |s| then [] else s[a..if b < |s| then b else |s|]
  }

  /** Python's `s.index(b"\0", from)`, None where that raises. */
  function FirstZero(s: seq<byte>, from: nat): (z: Option<nat>)
    requires from <= |s|
    ensures z.Some? ==> from <= z.value < |s| && s[z.value] == 0 && forall i :: from <= i < z.value ==> s[i] != 0
    ensures z.None? ==> forall i :: from <= i < |s| ==> s[i] != 0
    decreases |s| - from
  {
    if from == |s| then None else if s[from] == 0 then Some(from) else FirstZero(s, from + 1)
  }

  lemma FirstZeroIs(s: seq<byte>, from: nat, z: nat)
    requires from <= z < |s| && s[z] == 0 && forall i :: from <= i < z ==> s[i] != 0
    ensures FirstZero(s, from) == Some(z)
  {}
}
