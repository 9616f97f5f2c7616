/** The X25519 scalar multiplication of the login proof (section 5 of RFC 7748), its refinement to a plain
    Montgomery ladder, Diffie-Hellman agreement over any curve the ladder formulas are valid for, and the
    collapse of the low-order inputs that the fixed-key login variants rely on. */
module KeyAgreement {
  import opened Bytes

  const P: int := 0x7FFF_FFFF_FFFF_FFFF_FFFF_FFFF_FFFF_FFFF_FFFF_FFFF_FFFF_FFFF_FFFF_FFFF_FFFF_FFED
  const TWO_255: int := 0x8000_0000_0000_0000_0000_0000_0000_0000_0000_0000_0000_0000_0000_0000_0000_0000
  const TWO_248: int := 0x100_0000_0000_0000_0000_0000_0000_0000_0000_0000_0000_0000_0000_0000_0000_0000
  const A24: int := 121665
  const BITS: nat := 255
  const KEY_SIZE: nat := 32
  const BASE_U: nat := 9

  datatype Result<+T> = Ok(value: T) | IndexError

  // ---- arithmetic modulo P -------------------------------------------------

  function Add(a: int, b: int): int { (a + b) % P }
  function Sub(a: int, b: int): int { (a - b) % P }
  function Mul(a: int, b: int): int { (a * b) % P }
  function Square(a: int): int { Mul(a, a) }

  /** `pow(b, e, P)`. */
  function Pow(b: int, e: nat): (r: int)
    ensures 0 <= r < P
  {
    if e == 0 then 1 else Mul(b, Pow(b, e - 1))
  }

  // ---- decoding ------------------------------------------------------------

  /** The u-coordinate of 32 wire bytes, top bit masked. */
  function DecodeU(u: seq<byte>): (r: Result<nat>)
    ensures r.Ok? <==> |u| >= 32
    ensures r.Ok? ==> r.value < TWO_255
  {
    if |u| < 32 then IndexError
    else
      var masked := u[..32][31 := u[31] % 0x80];
      ThirtyTwoBytes(masked);
      Ok(FromLE(masked))
  }

  /** The clamped scalar: low three bits clear, bit 255 clear, bit 254 set. */
  function DecodeScalar(k: seq<byte>): (r: Result<nat>)
    ensures r.Ok? <==> |k| >= 32
    ensures r.Ok? ==> TWO_255 / 2 <= r.value < TWO_255 && r.value % 8 == 0
  {
    if |k| < 32 then IndexError
    else
      var clamped := k[..32][0 := k[0] - k[0] % 8][31 := k[31] % 0x40 + 0x40];
      ThirtyTwoBytes(clamped);
      Ok(FromLE(clamped))
  }

  lemma ThirtyTwoBytes(s: seq<byte>)
    requires |s| == 32
    ensures s[31] * TWO_248 <= FromLE(s) < (s[31] + 1) * TWO_248
    ensures FromLE(s) % 8 == s[0] % 8
  {
    hide ToLE, FromLE;
    var low := s[..31];
    ToLEOfFromLE(low);
    Pow256Of31();
    assert s == low + [s[31]];
    Joined(low, s[31]);
    LowByte(s);
  }

  lemma LowByte(s: seq<byte>)
    requires s != []
    ensures FromLE(s) % 8 == s[0] % 8
  {
    var m := FromLE(s[1..]);
    assert FromLE(s) == s[0] + 8 * (32 * m);
  }

  lemma Pow256Of31()
    ensures Pow256(31) == TWO_248
  {
    assert Pow256(7) == 0x100_0000_0000_0000;
    Pow256Add(7, 8);
    Pow256Add(15, 16);
    Pow256Add(8, 8);
  }

  lemma {:induction false} Pow256Add(m: nat, n: nat)
    ensures Pow256(m + n) == Pow256(m) * Pow256(n)
  {
    if m > 0 {
      Pow256Add(m - 1, n);
    }
  }

  lemma {:induction false} Joined(s: seq<byte>, last: byte)
    ensures FromLE(s + [last]) == FromLE(s) + Pow256(|s|) * last
  {
    if s == [] {
      assert [last][1..] == [];
    } else {
      assert (s + [last])[1..] == s[1..] + [last];
      Joined(s[1..], last);
    }
  }

  // ---- the ladder ----------------------------------------------------------

  /** A projective u-coordinate x : z. */
  datatype Point = Point(x: int, z: int)

  /** The two points the ladder carries. */
  datatype Rungs = Rungs(lo: Point, hi: Point)

  function Double(p: Point): Point {
    var aa, bb := Square(Add(p.x, p.z)), Square(Sub(p.x, p.z));
    var e := Sub(aa, bb);
    Point(Mul(aa, bb), Mul(e, Add(aa, Mul(A24, e))))
  }

  function DiffAdd(x1: int, p: Point, q: Point): Point {
    var da, cb := Mul(Sub(q.x, q.z), Add(p.x, p.z)), Mul(Add(q.x, q.z), Sub(p.x, p.z));
    Point(Square(Add(da, cb)), Mul(x1, Square(Sub(da, cb))))
  }

  /** One undeferred ladder step: swap on a one bit, step, swap back. */
  function Climb(x1: int, r: Rungs, bit: nat): Rungs {
    if bit == 0 then Rungs(Double(r.lo), DiffAdd(x1, r.lo, r.hi))
    else Rungs(DiffAdd(x1, r.hi, r.lo), Double(r.hi))
  }

  /** The rungs after the bits 254, 253, .., t of k. */
  function Ladder(x1: int, k: nat, t: nat): Rungs
    requires t <= BITS
    decreases BITS - t
  {
    if t == BITS then Rungs(Point(1, 0), Point(x1, 1))
    else Climb(x1, Ladder(x1, k, t + 1), Bit(k, t))
  }

  /** x / z, with 1/z as z^(P-2). */
  function Affine(p: Point): (u: int)
    ensures 0 <= u < P
  {
    Mul(p.x, Pow(p.z, P - 2))
  }

  /** What the plain ladder returns for decoded arguments. */
  function Multiply(k: nat, x1: int): nat {
    Affine(Ladder(x1, k, 0).lo)
  }

  /** `res.to_bytes(32, "little")`. */
  function Encode(v: nat): seq<byte> {
    ToLE(v, KEY_SIZE)
  }

  function Shared(scalar: seq<byte>, u: seq<byte>): Result<seq<byte>> {
    var k, x1 := DecodeScalar(scalar), DecodeU(u);
    if k.IndexError? || x1.IndexError? then IndexError
    else Ok(Encode(Multiply(k.value, x1.value)))
  }

  function Swapped(swap: nat, r: Rungs): Rungs {
    if swap == 0 then r else Rungs(r.hi, r.lo)
  }

  /** The arithmetic of one iteration, in the source's variables. */
  method DoubleAndAdd(x1: int, x2: int, z2: int, x3: int, z3: int) returns (x2': int, z2': int, x3': int, z3': int)
    ensures Point(x2', z2') == Double(Point(x2, z2))
    ensures Point(x3', z3') == DiffAdd(x1, Point(x2, z2), Point(x3, z3))
  {
    var a := Add(x2, z2);
    var aa := Square(a);
    var b := Sub(x2, z2);
    var bb := Square(b);
    var e := Sub(aa, bb);
    var c := Add(x3, z3);
    var d := Sub(x3, z3);
    var da := Mul(d, a);
    var cb := Mul(c, b);
    x3' := Square(Add(da, cb));
    z3' := Mul(x1, Square(Sub(da, cb)));
    x2' := Mul(aa, bb);
    z2' := Mul(e, Add(aa, Mul(A24, e)));
  }

  /** The loop of the source. The conditional swaps are deferred: `swap` remembers whether the
      registers are exchanged, and each iteration exchanges them only when the bit changes. */
  method X25519(scalar: seq<byte>, upoint: seq<byte>) returns (r: Result<seq<byte>>)
    ensures r == Shared(scalar, upoint)
  {
    if |scalar| < 32 || |upoint| < 32 {
      return IndexError;
    }
    hide DecodeScalar, DecodeU, Affine, Encode;
    var k, x1 := DecodeScalar(scalar).value, DecodeU(upoint).value;
    var x2, z2, x3, z3 := 1, 0, x1, 1;
    var swap: nat := 0;
    for t := BITS downto 0
      invariant swap < 2
      invariant Swapped(swap, Rungs(Point(x2, z2), Point(x3, z3))) == Ladder(x1, k, t)
    {
      ghost var before := Ladder(x1, k, t + 1);
      var kt := Bit(k, t);
      swap := (swap + kt) % 2;
      if swap == 1 {
        x2, x3 := x3, x2;
        z2, z3 := z3, z2;
      }
      swap := kt;
      assert Rungs(Point(x2, z2), Point(x3, z3)) == Swapped(kt, before);
      x2, z2, x3, z3 := DoubleAndAdd(x1, x2, z2, x3, z3);
    }
    if swap == 1 {
      x2, x3 := x3, x2;
      z2, z3 := z3, z2;
    }
    r := Ok(Encode(Affine(Point(x2, z2))));
  }

  // ---- what the ladder computes, over any curve its formulas are valid for ----

  /** A commutative group of points with its u-coordinate map, and the relation "x : z are
      projective coordinates of q". Inverses are never needed. */
  datatype Curve<!T> = Curve(zero: T, add: (T, T) -> T, u: T -> int, rep: (T, Point) -> bool)

  ghost predicate Assoc<T>(c: Curve<T>, a: T, b: T, d: T) {
    c.add(c.add(a, b), d) == c.add(a, c.add(b, d))
  }

  ghost predicate Comm<T>(c: Curve<T>, a: T, b: T) {
    c.add(a, b) == c.add(b, a) && c.add(c.zero, a) == a
  }

  ghost predicate Commutative<T(!new)>(c: Curve<T>) {
    && (forall a, b :: Comm(c, a, b))
    && (forall a, b, d :: Assoc(c, a, b, d))
  }

  ghost predicate Doubles<T>(c: Curve<T>, q: T, p: Point) {
    c.rep(q, p) ==> c.rep(c.add(q, q), Double(p))
  }

  ghost predicate Inverts<T>(c: Curve<T>, q: T, p: Point) {
    c.rep(q, p) ==> Affine(p) == c.u(q)
  }

  /** Inversion by Fermat recovers the u-coordinate. */
  ghost predicate Inversion<T(!new)>(c: Curve<T>) {
    forall q, p :: Inverts(c, q, p)
  }

  /** Double doubles every represented point. */
  ghost predicate CurveLaws<T(!new)>(c: Curve<T>) {
    c.rep(c.zero, Point(1, 0)) && forall q, p :: Doubles(c, q, p)
  }

  /** The points q and q + base have the difference DiffAdd is told about, in either order. */
  ghost predicate AddsDifference<T>(c: Curve<T>, base: T, x1: int, q: T, p: Point, p': Point) {
    c.rep(q, p) && c.rep(c.add(q, base), p') ==>
      && c.rep(c.add(q, c.add(q, base)), DiffAdd(x1, p, p'))
      && c.rep(c.add(q, c.add(q, base)), DiffAdd(x1, p', p))
  }

  /** Differential addition is valid for the difference `base`, whose u-coordinate is x1. */
  ghost predicate BaseLaws<T(!new)>(c: Curve<T>, base: T, x1: int) {
    c.rep(base, Point(x1, 1)) && forall q, p, p' :: AddsDifference(c, base, x1, q, p, p')
  }

  function Times<T>(c: Curve<T>, n: nat, q: T): T {
    if n == 0 then c.zero else c.add(q, Times(c, n - 1, q))
  }

  /** The rungs are n*base and (n+1)*base. */
  ghost predicate OnRungs<T>(c: Curve<T>, base: T, n: nat, r: Rungs) {
    c.rep(Times(c, n, base), r.lo) && c.rep(Times(c, n + 1, base), r.hi)
  }

  /** The ladder invariant: after the bits above t the rungs are n*base and (n+1)*base,
      n being the prefix k >> t of the scalar. */
  lemma {:induction false} LadderInvariant<T(!new)>(c: Curve<T>, base: T, x1: int, k: nat, t: nat)
    requires Commutative(c) && CurveLaws(c) && BaseLaws(c, base, x1)
    requires k < Pow2(BITS) && t <= BITS
    ensures OnRungs(c, base, Shr(k, t), Ladder(x1, k, t))
    decreases BITS - t
  {
    hide Commutative, CurveLaws, BaseLaws, OnRungs, Climb, Pow2;
    if t == BITS {
      ShrOfSmall(k, t);
      Bottom(c, base, x1);
    } else {
      LadderInvariant(c, base, x1, k, t + 1);
      ShrStep(k, t);
      ClimbKeeps(c, base, x1, Ladder(x1, k, t + 1), Shr(k, t + 1), Bit(k, t));
    }
  }

  lemma Bottom<T(!new)>(c: Curve<T>, base: T, x1: int)
    requires Commutative(c) && CurveLaws(c) && BaseLaws(c, base, x1)
    ensures OnRungs(c, base, 0, Rungs(Point(1, 0), Point(x1, 1)))
  {
    assert Comm(c, base, c.zero);
  }

  lemma ClimbKeeps<T(!new)>(c: Curve<T>, base: T, x1: int, r: Rungs, n: nat, bit: nat)
    requires Commutative(c) && CurveLaws(c) && BaseLaws(c, base, x1) && bit < 2
    requires OnRungs(c, base, n, r)
    ensures OnRungs(c, base, 2 * n + bit, Climb(x1, r, bit))
  {
    var q := Times(c, n, base);
    assert Comm(c, base, q);
    TimesAdd(c, n, n, base);
    TimesAdd(c, n, n + 1, base);
    TimesAdd(c, n + 1, n + 1, base);
    assert AddsDifference(c, base, x1, q, r.lo, r.hi);
    assert Doubles(c, q, r.lo) && Doubles(c, Times(c, n + 1, base), r.hi);
  }

  lemma {:induction false} TimesAdd<T(!new)>(c: Curve<T>, m: nat, n: nat, q: T)
    requires Commutative(c)
    ensures Times(c, m + n, q) == c.add(Times(c, m, q), Times(c, n, q))
  {
    if m == 0 {
      assert Comm(c, Times(c, n, q), c.zero);
    } else {
      TimesAdd(c, m - 1, n, q);
      assert Assoc(c, q, Times(c, m - 1, q), Times(c, n, q));
    }
  }

  lemma {:induction false} TimesTimes<T(!new)>(c: Curve<T>, m: nat, n: nat, q: T)
    requires Commutative(c)
    ensures Times(c, m, Times(c, n, q)) == Times(c, m * n, q)
  {
    if m > 0 {
      TimesTimes(c, m - 1, n, q);
      assert m * n == n + (m - 1) * n;
      TimesAdd(c, n, (m - 1) * n, q);
    }
  }

  lemma MultiplyIsTimes<T(!new)>(c: Curve<T>, base: T, k: nat, x1: nat)
    requires k < Pow2(BITS)
    requires Commutative(c) && CurveLaws(c) && Inversion(c) && BaseLaws(c, base, x1)
    ensures Multiply(k, x1) == Reduced(c, Times(c, k, base))
  {
    LadderInvariant(c, base, x1, k, 0);
    RecoverU(c, base, k, Ladder(x1, k, 0));
  }

  lemma RecoverU<T(!new)>(c: Curve<T>, base: T, n: nat, r: Rungs)
    requires Inversion(c) && OnRungs(c, base, n, r)
    ensures Affine(r.lo) == Reduced(c, Times(c, n, base))
  {
    assert Inverts(c, Times(c, n, base), r.lo);
  }

  /** The key bytes are the u-coordinate of clamp(scalar) * base, x1 being the u-coordinate of base. */
  lemma ScalarMultiplication<T(!new)>(c: Curve<T>, base: T, scalar: seq<byte>, upoint: seq<byte>, k: nat, x1: nat)
    requires DecodeScalar(scalar) == Ok(k) && DecodeU(upoint) == Ok(x1)
    requires Commutative(c) && CurveLaws(c) && Inversion(c) && BaseLaws(c, base, x1)
    ensures Shared(scalar, upoint) == Ok(Encode(Reduced(c, Times(c, k, base))))
  {
    Pow2Of255();
    MultiplyIsTimes(c, base, k, x1);
  }

  /** The u-coordinate as a field element; Inversion makes it u itself on every represented point. */
  function Reduced<T>(c: Curve<T>, q: T): (u: nat)
    ensures u < P
  {
    c.u(q) % P
  }

  lemma Pow2Of255()
    ensures Pow2(BITS) == TWO_255
  {
    assert Pow2(15) == 0x8000;
    Pow2Add(15, 15);
    assert Pow2(30) == 0x4000_0000;
    Pow2Add(30, 30);
    assert Pow2(60) == 0x1000_0000_0000_0000;
    Pow2Add(60, 60);
    assert Pow2(120) == 0x100_0000_0000_0000_0000_0000_0000_0000;
    Pow2Add(120, 120);
    assert Pow2(240) == 0x1_0000_0000_0000_0000_0000_0000_0000_0000_0000_0000_0000_0000_0000_0000_0000;
    Pow2Add(240, 15);
  }

  /** The 32 bytes of a field element decode to it: the masked top bit is already clear. */
  lemma DecodeOfEncode(v: nat)
    requires v < P
    ensures DecodeU(Encode(v)) == Ok(v)
  {
    var s := ToLE(v, KEY_SIZE);
    Pow256Of31();
    Pow256Add(31, 1);
    FromLEOfToLE(v, KEY_SIZE);
    ThirtyTwoBytes(s);
    ClearTop(s);
  }

  function BasePoint(): (u: seq<byte>) {
    [BASE_U as byte] + seq(31, _ => 0)
  }

  /** The public key of a private key. */
  function PublicKey(scalar: seq<byte>): Result<seq<byte>> {
    Shared(scalar, BasePoint())
  }

  lemma BasePointDecodes()
    ensures DecodeU(BasePoint()) == Ok(BASE_U)
  {
    Pow256Of31();
    Pow256Add(31, 1);
    ZeroBytes(31);
    assert BasePoint()[1..] == seq(31, _ => 0);
    ClearTop(BasePoint());
  }

  lemma {:induction false} ZeroBytes(n: nat)
    ensures FromLE(seq(n, _ => 0)) == 0 && ToLE(0, n) == seq(n, _ => 0)
  {
    if n > 0 {
      ZeroBytes(n - 1);
      assert seq(n, _ => 0)[1..] == seq(n - 1, _ => 0);
      assert seq(n, _ => 0) == [0] + seq(n - 1, _ => 0);
    }
  }

  /** Diffie-Hellman (section 6.1 of RFC 7748): each party's scalar on the other's public key gives one
      key, the u-coordinate of clamp(a) * clamp(b) * base. The ladder formulas have to be valid for the
      base point and for the two public points. */
  lemma Agreement<T(!new)>(c: Curve<T>, base: T, a: seq<byte>, b: seq<byte>, ka: nat, kb: nat, kab: nat)
    requires DecodeScalar(a) == Ok(ka) && DecodeScalar(b) == Ok(kb) && kab == ka * kb
    requires Commutative(c) && CurveLaws(c) && Inversion(c) && BaseLaws(c, base, BASE_U)
    requires BaseLaws(c, Times(c, ka, base), Reduced(c, Times(c, ka, base)))
    requires BaseLaws(c, Times(c, kb, base), Reduced(c, Times(c, kb, base)))
    ensures PublicKey(a).Ok? && PublicKey(b).Ok?
    ensures Shared(a, PublicKey(b).value) == Shared(b, PublicKey(a).value)
    ensures Shared(a, PublicKey(b).value) == Ok(Encode(Reduced(c, Times(c, kab, base))))
  {
    BasePointDecodes();
    ScalarMultiplication(c, base, a, BasePoint(), ka, BASE_U);
    ScalarMultiplication(c, base, b, BasePoint(), kb, BASE_U);
    TimesTimes(c, ka, kb, base);
    TimesTimes(c, kb, ka, base);
    assert ka * kb == kb * ka;
    SecretOf(c, Times(c, kb, base), a, ka);
    SecretOf(c, Times(c, ka, base), b, kb);
  }

  /** One side of the agreement: scalar a on the encoded point q. */
  lemma SecretOf<T(!new)>(c: Curve<T>, q: T, a: seq<byte>, ka: nat)
    requires DecodeScalar(a) == Ok(ka)
    requires Commutative(c) && CurveLaws(c) && Inversion(c) && BaseLaws(c, q, Reduced(c, q))
    ensures Shared(a, Encode(Reduced(c, q))) == Ok(Encode(Reduced(c, Times(c, ka, q))))
  {
    DecodeOfEncode(Reduced(c, q));
    ScalarMultiplication(c, q, a, Encode(Reduced(c, q)), ka, Reduced(c, q));
  }

  // ---- low-order inputs ------------------------------------------------------

  type Residue4 = q: int | 0 <= q < 4

  /** A cyclic group of order four with the coordinates the ladder gives it when x1 is 0, 1 or -1:
      z vanishes at 0, x at 2, and x = sign * z at 1 and 3. */
  ghost function OrderFour(sign: int): Curve<Residue4> {
    Curve<Residue4>.Curve(0, (a: Residue4, b: Residue4) => (a + b) % 4, (_: Residue4) => 0,
                    (q: Residue4, p: Point) => OnOrderFour(sign, q, p))
  }

  ghost predicate OnOrderFour(sign: int, q: Residue4, p: Point) {
    match q
    case 0 => p.z % P == 0
    case 2 => p.x % P == 0
    case _ => if sign == 1 then Sub(p.x, p.z) == 0 else Add(p.x, p.z) == 0
  }

  lemma ZeroProduct(a: int, b: int)
    ensures a == 0 || b == 0 ==> Mul(a, b) == 0
  {}

  lemma AddZero(a: int, z: int)
    requires z % P == 0
    ensures Add(a, z) == Sub(a, z) == a % P && Add(z, a) == a % P && Sub(z, a) == Sub(0, a)
  {
    ModUnique(a + z, P, a / P + z / P, a % P);
    ModUnique(a - z, P, a / P - z / P, a % P);
    ModUnique(z - a, P, (0 - a) / P + z / P, (0 - a) % P);
  }

  lemma SquareOfNegation(c: int)
    ensures Square(Add(0, c)) == Square(Sub(0, c))
  {
    var m := c % P;
    assert Add(0, c) == m;
    if m != 0 {
      assert Sub(0, c) == P - m;
      assert (P - m) * (P - m) == (P - 2 * m) * P + m * m;
      ModUnique((P - m) * (P - m), P, (P - 2 * m) + (m * m) / P, (m * m) % P);
    }
  }

  lemma MulByResidue(x1: int, v: int)
    requires 0 <= v < P
    ensures x1 % P == 0 ==> Mul(x1, v) == 0
    ensures x1 % P == 1 ==> Mul(x1, v) == v
    ensures x1 % P == P - 1 ==> Add(v, Mul(x1, v)) == 0
  {
    var q := x1 / P;
    if x1 % P == 0 {
      assert x1 * v == (q * v) * P;
      ModUnique(x1 * v, P, q * v, 0);
    } else if x1 % P == 1 {
      assert x1 * v == (q * v) * P + v;
      ModUnique(x1 * v, P, q * v, v);
    } else if x1 % P == P - 1 && v != 0 {
      assert x1 * v == (q * v + v - 1) * P + (P - v);
      ModUnique(x1 * v, P, q * v + v - 1, P - v);
    }
  }

  lemma DoubleFlat(p: Point)
    requires Square(Add(p.x, p.z)) == Square(Sub(p.x, p.z))
    ensures Double(p).z == 0
  {
    var aa := Square(Add(p.x, p.z));
    assert Sub(aa, aa) == 0;
    ZeroProduct(0, Add(aa, Mul(A24, 0)));
  }

  lemma DoubleOfUnit(p: Point)
    requires Add(p.x, p.z) == 0 || Sub(p.x, p.z) == 0
    ensures Double(p).x == 0
  {
    ZeroProduct(Add(p.x, p.z), Add(p.x, p.z));
    ZeroProduct(Sub(p.x, p.z), Sub(p.x, p.z));
    ZeroProduct(Square(Add(p.x, p.z)), Square(Sub(p.x, p.z)));
  }

  lemma EvenDoubles(sign: int, q: Residue4, p: Point)
    requires OnOrderFour(sign, q, p) && (q == 0 || q == 2)
    ensures OnOrderFour(sign, 0, Double(p))
  {
    if q == 0 {
      AddZero(p.x, p.z);
    } else {
      AddZero(p.z, p.x);
      SquareOfNegation(p.z);
    }
    DoubleFlat(p);
  }

  ghost predicate Unit(sign: int, x1: int) {
    (sign == 1 && x1 % P == 1) || (sign == -1 && x1 % P == P - 1)
  }

  /** One point even, one odd, difference x1 = sign: the sum is odd. */
  lemma EvenPlusOdd(sign: int, x1: int, p: Point, p': Point, q: Residue4, q': Residue4)
    requires Unit(sign, x1)
    requires OnOrderFour(sign, q, p) && OnOrderFour(sign, q', p') && (q + q') % 2 == 1
    ensures OnOrderFour(sign, 1, DiffAdd(x1, p, p'))
  {
    var a, b, c, d := Add(p.x, p.z), Sub(p.x, p.z), Add(p'.x, p'.z), Sub(p'.x, p'.z);
    var da, cb := Mul(d, a), Mul(c, b);
    ZeroProduct(d, a);
    ZeroProduct(c, b);
    if da == 0 {
      SquareOfNegation(cb);
    }
    assert Square(Add(da, cb)) == Square(Sub(da, cb));
    var v := Square(Add(da, cb));
    MulByResidue(x1, v);
    assert DiffAdd(x1, p, p') == Point(v, Mul(x1, v));
  }

  lemma OrderFourLaws(sign: int, x1: int)
    requires Unit(sign, x1)
    ensures Commutative(OrderFour(sign)) && CurveLaws(OrderFour(sign)) && BaseLaws(OrderFour(sign), 1, x1)
  {
    OrderFourCommutes(sign);
    assert CurveLaws(OrderFour(sign)) by {
      forall q: Residue4, p ensures Doubles(OrderFour(sign), q, p) {
        OrderFourDoubles(sign, q, p);
      }
    }
    assert BaseLaws(OrderFour(sign), 1, x1) by {
      assert OrderFour(sign).rep(1, Point(x1, 1));
      forall q: Residue4, p, p' ensures AddsDifference(OrderFour(sign), 1, x1, q, p, p') {
        OrderFourAdds(sign, x1, q, p, p');
      }
    }
  }

  lemma OrderFourCommutes(sign: int)
    ensures Commutative(OrderFour(sign))
  {
    var c := OrderFour(sign);
    forall a: Residue4, b, d ensures Assoc(c, a, b, d) {
      SumsOfFour(a, b, d);
    }
    forall a: Residue4, b ensures Comm(c, a, b) {}
  }

  lemma SumsOfFour(a: Residue4, b: Residue4, d: Residue4)
    ensures ((a + b) % 4 + d) % 4 == (a + (b + d) % 4) % 4
  {}

  lemma OrderFourDoubles(sign: int, q: Residue4, p: Point)
    requires sign == 1 || sign == -1
    ensures Doubles(OrderFour(sign), q, p)
  {
    hide Double, OnOrderFour;
    OrderFourMeans(sign, q, p, Double(p));
    if OnOrderFour(sign, q, p) {
      if q % 2 == 0 {
        EvenDoubles(sign, q, p);
      } else {
        DoubleOfUnit(p);
      }
    }
  }

  lemma OrderFourMeans(sign: int, q: Residue4, p: Point, d: Point)
    requires sign == 1 || sign == -1
    ensures (q == 1 || q == 3) && OnOrderFour(sign, q, p) ==> Add(p.x, p.z) == 0 || Sub(p.x, p.z) == 0
    ensures d.x == 0 ==> OnOrderFour(sign, 2, d)
    ensures Doubles(OrderFour(sign), q, p) <==> (OnOrderFour(sign, q, p) ==> OnOrderFour(sign, (q + q) % 4, Double(p)))
  {
    hide Double;
  }

  lemma OrderFourAdds(sign: int, x1: int, q: Residue4, p: Point, p': Point)
    requires Unit(sign, x1)
    ensures AddsDifference(OrderFour(sign), 1, x1, q, p, p')
  {
    if OnOrderFour(sign, q, p) && OnOrderFour(sign, (q + 1) % 4, p') {
      EvenPlusOdd(sign, x1, p, p', q, (q + 1) % 4);
      EvenPlusOdd(sign, x1, p', p, (q + 1) % 4, q);
    }
  }

  /** For x1 = 0 every represented point has a vanishing coordinate. */
  ghost function Collapsed(): Curve<Residue4> {
    OrderFour(1).(rep := (_: Residue4, p: Point) => p.x % P == 0 || p.z % P == 0)
  }

  lemma CollapsedLaws(x1: int)
    requires x1 % P == 0
    ensures Commutative(Collapsed()) && CurveLaws(Collapsed()) && BaseLaws(Collapsed(), 1, x1)
  {
    assert Commutative(Collapsed()) by {
      CollapsedCommutes();
    }
    assert CurveLaws(Collapsed()) by {
      forall q: Residue4, p ensures Doubles(Collapsed(), q, p) {
        if p.z % P == 0 {
          EvenDoubles(1, 0, p);
        } else if p.x % P == 0 {
          EvenDoubles(1, 2, p);
        }
      }
    }
    assert BaseLaws(Collapsed(), 1, x1) by {
      forall q: Residue4, p, p' ensures AddsDifference(Collapsed(), 1, x1, q, p, p') {
        CollapsedSum(x1, p, p');
        CollapsedSum(x1, p', p);
      }
    }
  }

  lemma CollapsedCommutes()
    ensures Commutative(Collapsed())
  {
    var c := Collapsed();
    forall a: Residue4, b, d ensures Assoc(c, a, b, d) {
      SumsOfFour(a, b, d);
    }
    forall a: Residue4, b ensures Comm(c, a, b) {}
  }

  lemma CollapsedSum(x1: int, p: Point, p': Point)
    requires x1 % P == 0
    ensures DiffAdd(x1, p, p').z == 0
  {
    MulByResidue(x1, Square(Sub(Mul(Sub(p'.x, p'.z), Add(p.x, p.z)), Mul(Add(p'.x, p'.z), Sub(p.x, p.z)))));
  }

  /** u = 0, 1 or -1 modulo P gives zero for every clamped scalar. */
  lemma LowOrderCollapses(k: nat, x1: nat)
    requires k < TWO_255 && k % 8 == 0
    requires x1 % P == 0 || x1 % P == 1 || x1 % P == P - 1
    ensures Multiply(k, x1) == 0
  {
    Pow2Of255();
    if x1 % P == 0 {
      CollapsedLaws(x1);
      LadderInvariant(Collapsed(), 1, x1, k, 0);
    } else {
      UnitEndsAtZero(if x1 % P == 1 then 1 else -1, x1, k);
    }
    var p := Ladder(x1, k, 0).lo;
    MulByResidue(p.x, Pow(p.z, P - 2));
    if p.z % P == 0 {
      MulByResidue(p.z, Pow(p.z, P - 3));
      ZeroProduct(p.x, 0);
    }
  }

  /** The clamped scalar is a multiple of the order, so the ladder ends at the group's zero. */
  lemma UnitEndsAtZero(sign: int, x1: nat, k: nat)
    requires Unit(sign, x1) && k < Pow2(BITS) && k % 8 == 0
    ensures Ladder(x1, k, 0).lo.z % P == 0
  {
    OrderFourLaws(sign, x1);
    LadderInvariant(OrderFour(sign), 1, x1, k, 0);
    OrderFourZero(sign, k, Ladder(x1, k, 0));
  }

  lemma OrderFourZero(sign: int, k: nat, r: Rungs)
    requires k % 8 == 0 && OnRungs(OrderFour(sign), 1, k, r)
    ensures r.lo.z % P == 0
  {
    TimesOfOrderFour(sign, k);
    assert OrderFour(sign).rep(0, r.lo);
  }

  lemma {:induction false} TimesOfOrderFour(sign: int, n: nat)
    ensures Times(OrderFour(sign), n, 1) == n % 4
  {
    if n > 0 {
      TimesOfOrderFour(sign, n - 1);
    }
  }

  /** The fixed-key login variants: whatever private key the client holds, a low-order server key makes
      the shared secret 32 zero bytes. */
  lemma FixedKey(scalar: seq<byte>, upoint: seq<byte>)
    requires |scalar| >= 32 && |upoint| >= 32
    requires var x1 := DecodeU(upoint).value % P; x1 == 0 || x1 == 1 || x1 == P - 1
    ensures Shared(scalar, upoint) == Ok(seq(KEY_SIZE, _ => 0))
  {
    LowOrderCollapses(DecodeScalar(scalar).value, DecodeU(upoint).value);
    ZeroBytes(KEY_SIZE);
  }

  function ZeroKey(): seq<byte> { seq(KEY_SIZE, _ => 0) }
  function OneLittleEndian(): seq<byte> { [1] + seq(31, _ => 0) }
  function OneBigEndian(): seq<byte> { seq(31, _ => 0) + [1] }
  function Reverse(s: seq<byte>): seq<byte> { seq(|s|, i requires 0 <= i < |s| => s[|s| - 1 - i]) }

  /** The server keys of the variants lo_u0 and lo_u1le fix the key at zero; so does lo_u1be, whose bytes
      the client is assumed to reverse. Reversing makes no difference to the first. */
  lemma LowOrderVariants(scalar: seq<byte>)
    requires |scalar| >= 32
    ensures Shared(scalar, ZeroKey()) == Ok(ZeroKey())
    ensures Shared(scalar, Reverse(ZeroKey())) == Ok(ZeroKey())
    ensures Shared(scalar, OneLittleEndian()) == Ok(ZeroKey())
    ensures Shared(scalar, Reverse(OneBigEndian())) == Ok(ZeroKey())
  {
    VariantsDecode();
    FixedKey(scalar, ZeroKey());
    FixedKey(scalar, OneLittleEndian());
    assert Reverse(ZeroKey()) == ZeroKey();
    assert Reverse(OneBigEndian()) == OneLittleEndian();
  }

  lemma VariantsDecode()
    ensures DecodeU(ZeroKey()) == Ok(0)
    ensures DecodeU(OneLittleEndian()) == Ok(1)
  {
    ZeroBytes(KEY_SIZE);
    ClearTop(ZeroKey());
    ZeroBytes(31);
    assert OneLittleEndian()[1..] == seq(31, _ => 0);
    ClearTop(OneLittleEndian());
  }

  lemma ClearTop(u: seq<byte>)
    requires |u| == 32 && u[31] < 0x80
    ensures DecodeU(u) == Ok(FromLE(u))
  {
    TopMaskedIsClear(u);
  }

  lemma TopMaskedIsClear(u: seq<byte>)
    requires |u| == 32 && u[31] < 0x80
    ensures u[..32][31 := u[31] % 0x80] == u
  {}
}
