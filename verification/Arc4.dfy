/** The ARC4 stream cipher that covers packet headers. */
module Arc4 {
  import opened Bytes

  /** The source's fields: the permutation S and the two indices. */
  datatype State = State(s: seq<byte>, i: byte, j: byte)

  ghost predicate Permutation(s: seq<byte>) {
    |s| == 256 && forall a, b :: 0 <= a < b < 256 ==> s[a] != s[b]
  }

  ghost predicate Valid(st: State) {
    Permutation(st.s)
  }

  /** Addition of two bytes modulo 256. */
  function Plus(a: byte, b: byte): byte {
    (a as int + b as int) % 256
  }

  function Xor(a: byte, b: byte): byte {
    XorBits(a, b, 8)
  }

  function XorBits(a: nat, b: nat, n: nat): (x: nat)
    ensures x < Pow2(n)
  {
    if n == 0 then 0 else (a + b) % 2 + 2 * XorBits(a / 2, b / 2, n - 1)
  }

  lemma {:induction false} XorBitsTwice(a: nat, b: nat, n: nat)
    requires a < Pow2(n)
    ensures XorBits(XorBits(a, b, n), b, n) == a
  {
    if n > 0 {
      XorBitsTwice(a / 2, b / 2, n - 1);
      var x := XorBits(a, b, n);
      HalfOfPair((a + b) % 2, XorBits(a / 2, b / 2, n - 1));
      BitTwice(a, b, x);
      assert XorBits(x, b, n) == (x + b) % 2 + 2 * XorBits(x / 2, b / 2, n - 1);
    }
  }

  lemma XorTwice(a: byte, b: byte)
    ensures Xor(Xor(a, b), b) == a
  {
    assert Pow2(8) == 256;
    XorBitsTwice(a, b, 8);
  }

  lemma HalfOfPair(bit: nat, rest: nat)
    requires bit < 2
    ensures (bit + 2 * rest) / 2 == rest && (bit + 2 * rest) % 2 == bit
  {}

  lemma BitTwice(a: nat, b: nat, x: nat)
    requires x % 2 == (a + b) % 2
    ensures (x + b) % 2 == a % 2
  {}

  lemma {:induction false} XorBitsFixed(a: nat, k: nat, n: nat)
    requires a < Pow2(n) && k < Pow2(n) && XorBits(a, k, n) == a
    ensures k == 0
  {
    if n > 0 {
      HalfOfPair((a + k) % 2, XorBits(a / 2, k / 2, n - 1));
      XorBitsFixed(a / 2, k / 2, n - 1);
    }
  }

  lemma {:induction false} XorBitsZero(a: nat, n: nat)
    requires a < Pow2(n)
    ensures XorBits(a, 0, n) == a
  {
    if n > 0 {
      XorBitsZero(a / 2, n - 1);
    }
  }

  /** A key byte that leaves one byte alone is zero, and leaves every byte alone. */
  lemma XorFixed(a: byte, k: byte, b: byte)
    requires Xor(a, k) == a
    ensures k == 0 && Xor(b, k) == b
  {
    assert Pow2(8) == 256;
    XorBitsFixed(a, k, 8);
    XorBitsZero(b, 8);
  }

  function SwapAt(s: seq<byte>, a: byte, b: byte): (r: seq<byte>)
    requires |s| == 256
    ensures |r| == 256
  {
    s[a := s[b]][b := s[a]]
  }

  /** One keystream step. */
  function Next(st: State): (r: State)
    requires |st.s| == 256
    ensures |r.s| == 256
  {
    var i := Plus(st.i, 1);
    var j := Plus(st.j, st.s[i]);
    State(SwapAt(st.s, i, j), i, j)
  }

  /** The keystream byte a state has just produced. */
  function KeyByte(st: State): byte
    requires |st.s| == 256
  {
    st.s[Plus(st.s[st.i], st.s[st.j])]
  }

  function Advance(st: State, n: nat): (r: State)
    requires |st.s| == 256
    ensures |r.s| == 256
    decreases n
  {
    if n == 0 then st else Advance(Next(st), n - 1)
  }

  function Crypt(st: State, data: seq<byte>): (out: seq<byte>)
    requires |st.s| == 256
    ensures |out| == |data|
    decreases |data|
  {
    if data == [] then []
    else [Xor(data[0], KeyByte(Next(st)))] + Crypt(Next(st), data[1..])
  }

  lemma {:induction false} AdvanceAdd(st: State, m: nat, n: nat)
    requires |st.s| == 256
    ensures Advance(st, m + n) == Advance(Advance(st, m), n)
    decreases m
  {
    if m > 0 {
      AdvanceAdd(Next(st), m - 1, n);
    }
  }

  /** Splitting the data does not matter: crypt(a + b) = crypt(a) + crypt(b) with the state carried over. */
  lemma {:induction false} CryptConcat(st: State, a: seq<byte>, b: seq<byte>)
    requires |st.s| == 256
    ensures Crypt(st, a + b) == Crypt(st, a) + Crypt(Advance(st, |a|), b)
    decreases |a|
  {
    if a == [] {
      assert a + b == b;
    } else {
      assert (a + b)[1..] == a[1..] + b;
      CryptConcat(Next(st), a[1..], b);
    }
  }

  /** Equal states undo each other. */
  lemma {:induction false} CryptTwice(st: State, data: seq<byte>)
    requires |st.s| == 256
    ensures Crypt(st, Crypt(st, data)) == data
    decreases |data|
  {
    if data != [] {
      var k := KeyByte(Next(st));
      XorTwice(data[0], k);
      CryptTwice(Next(st), data[1..]);
      assert Crypt(st, data)[1..] == Crypt(Next(st), data[1..]);
    }
  }

  /** A keystream that leaves one text alone leaves every text of that length alone. */
  lemma {:induction false} CryptFixed(st: State, a: seq<byte>, b: seq<byte>)
    requires |st.s| == 256 && |a| == |b| && Crypt(st, a) == a
    ensures Crypt(st, b) == b
    decreases |a|
  {
    hide Xor, Next, KeyByte;
    if a != [] {
      assert Crypt(st, a)[0] == Xor(a[0], KeyByte(Next(st))) && Crypt(st, a)[1..] == Crypt(Next(st), a[1..]);
      XorFixed(a[0], KeyByte(Next(st)), b[0]);
      CryptFixed(Next(st), a[1..], b[1..]);
    }
  }

  lemma {:induction false} AdvanceKeepsValid(st: State, n: nat)
    requires Valid(st)
    ensures Valid(Advance(st, n))
    decreases n
  {
    if n > 0 {
      AdvanceKeepsValid(Next(st), n - 1);
    }
  }

  // ---- key schedule ----------------------------------------------------------

  function Identity(): (s: seq<byte>)
    ensures Permutation(s)
  {
    seq(256, i requires 0 <= i < 256 => i as byte)
  }

  /** S and j after the first n rounds of the key schedule. */
  function Schedule(key: seq<byte>, n: nat): (r: (seq<byte>, byte))
    requires key != [] && n <= 256
    ensures Permutation(r.0)
  {
    if n == 0 then (Identity(), 0)
    else
      var (s, j) := Schedule(key, n - 1);
      var j' := Plus(Plus(j, s[n - 1]), key[(n - 1) % |key|]);
      (SwapAt(s, n - 1, j'), j')
  }

  function Init(key: seq<byte>): (st: State)
    requires key != []
    ensures Valid(st)
  {
    State(Schedule(key, 256).0, 0, 0)
  }

  class Rc4 {
    const s: array<byte>
    var i: byte
    var j: byte

    ghost function Value(): (st: State)
      reads this, s
      ensures |st.s| == s.Length
    {
      State(s[..], i, j)
    }

    /** A fresh table; the key must not be empty. */
    constructor (key: seq<byte>)
      requires key != []
      ensures fresh(s) && s.Length == 256
      ensures Value() == Init(key)
    {
      s := new byte[256](k requires 0 <= k < 256 => k as byte);
      i, j := 0, 0;
      new;
      var t: byte := 0;
      assert s[..] == Identity();
      for n := 0 to 256
        invariant (s[..], t) == Schedule(key, n)
        invariant i == 0 && j == 0
      {
        t := Plus(Plus(t, s[n]), key[n % |key|]);
        s[n], s[t] := s[t], s[n];
      }
    }

    /** A deep copy, to try a decryption without advancing the original. */
    constructor Copy(other: Rc4)
      requires other.s.Length == 256
      ensures fresh(s) && s.Length == 256
      ensures Value() == other.Value()
    {
      s := new byte[256](k requires 0 <= k < 256 reads other.s => other.s[k]);
      i, j := other.i, other.j;
      new;
      assert s[..] == other.s[..];
    }

    /** Encrypts or decrypts in place of the source's running loop; the state advances one step a byte. */
    method Apply(data: seq<byte>) returns (out: seq<byte>)
      requires s.Length == 256
      modifies this, s
      ensures out == Crypt(old(Value()), data)
      ensures Value() == Advance(old(Value()), |data|)
    {
      var x: byte, y: byte := i, j;
      out := [];
      for n := 0 to |data|
        invariant State(s[..], x, y) == Advance(old(Value()), n)
        invariant out == Crypt(old(Value()), data[..n])
      {
        ghost var before := State(s[..], x, y);
        x := Plus(x, 1);
        y := Plus(y, s[x]);
        s[x], s[y] := s[y], s[x];
        out := out + [Xor(data[n], s[Plus(s[x], s[y])])];
        assert State(s[..], x, y) == Next(before);
        AdvanceAdd(old(Value()), n, 1);
        CryptConcat(old(Value()), data[..n], [data[n]]);
        assert data[..n] + [data[n]] == data[..n + 1];
      }
      assert data[..|data|] == data;
      i, j := x, y;
    }
  }
}
