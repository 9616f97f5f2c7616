/** The values block of an object update: how many mask words, the words, and the set fields' values in ascending
    field order. */
module UpdateMask {
  import opened Bytes
  import opened Dbc
  import opened Ordering

  /** Four-byte values by field index. */
  type Fields = map<nat, seq<byte>>

  const WORD_BITS: nat := 32

  predicate FourByte(f: Fields) {
    forall i | i in f :: |f[i]| == 4
  }

  ghost predicate Covered(f: Fields, n: nat) {
    forall i | i in f :: i < 32 * n
  }

  /** Bits base, ..., base+n-1 of the mask, the lowest first. */
  function BitsIn(s: set<nat>, base: nat, n: nat): nat
    decreases n
  {
    if n == 0 then 0 else (if base in s then 1 else 0) + 2 * BitsIn(s, base + 1, n - 1)
  }

  function Words(s: set<nat>, n: nat): (w: seq<byte>)
    ensures |w| == 4 * n
  {
    if n == 0 then [] else Words(s, n - 1) + ToLE(BitsIn(s, 32 * (n - 1), WORD_BITS), 4)
  }

  function Values(f: Fields, ids: seq<nat>): (v: seq<byte>)
    requires FourByte(f) && forall k | 0 <= k < |ids| :: ids[k] in f
    ensures |v| == 4 * |ids|
    decreases |ids|
  {
    if ids == [] then [] else Values(f, ids[..|ids| - 1]) + f[ids[|ids| - 1]]
  }

  function Printed(f: Fields, n: nat): seq<byte>
    requires FourByte(f) && n < 256
  {
    KeysListed(f);
    [n] + Words(f.Keys, n) + Values(f, Ascending(f.Keys))
  }

  lemma KeysListed(f: Fields)
    ensures forall k | 0 <= k < |Ascending(f.Keys)| :: Ascending(f.Keys)[k] in f
  {
    forall k | 0 <= k < |Ascending(f.Keys)| ensures Ascending(f.Keys)[k] in f {
      assert Ascending(f.Keys)[k] in Members(Ascending(f.Keys));
    }
  }

  // ---- reading ------------------------------------------------------------------------------------

  predicate IsSet(words: seq<byte>, i: nat)
    requires 4 * (i / 32) + 4 <= |words|
  {
    Bit(Get(words, 4 * (i / 32)), i % 32) == 1
  }

  /** The set bits among the first k, ascending. */
  function SetBits(words: seq<byte>, k: nat): seq<nat>
    requires k <= 8 * |words| && |words| % 4 == 0
  {
    if k == 0 then [] else SetBits(words, k - 1) + if IsSet(words, k - 1) then [k - 1] else []
  }

  /** What a client makes of a block: the fields, and the bytes after it. */
  function Read(s: seq<byte>): Option<(Fields, seq<byte>)> {
    if s == [] || |s| < WordsEnd(s[0]) then None
    else
      var n: nat := s[0];
      var ids := SetBits(s[1..1 + 4 * n], 32 * n);
      var rest := s[1 + 4 * n..];
      if |rest| < 4 * |ids| then None
      else Some((Taken(ids, rest), rest[4 * |ids|..]))
  }

  function WordsEnd(n: nat): nat {
    1 + 4 * n
  }

  /** Each index takes the next four bytes. */
  function Taken(ids: seq<nat>, s: seq<byte>): Fields
    requires 4 * |ids| <= |s|
    decreases |ids|
  {
    if ids == [] then map[]
    else
      var k := |ids| - 1;
      Taken(ids[..k], s)[ids[k] := s[4 * k..4 * k + 4]]
  }

  // ---- bits ---------------------------------------------------------------------------------------

  lemma {:induction false} BitsInBound(s: set<nat>, base: nat, n: nat)
    ensures BitsIn(s, base, n) < Pow2(n)
    decreases n
  {
    if n > 0 {
      BitsInBound(s, base + 1, n - 1);
    }
  }

  lemma {:induction false} BitOfBitsIn(s: set<nat>, base: nat, n: nat, t: nat)
    requires t < n
    ensures Bit(BitsIn(s, base, n), t) == 1 <==> base + t in s
    decreases n
  {
    var b, m := if base in s then 1 else 0, BitsIn(s, base + 1, n - 1);
    assert BitsIn(s, base, n) == b + 2 * m;
    assert (b + 2 * m) % 2 == b && (b + 2 * m) / 2 == m;
    if t > 0 {
      BitOfBitsIn(s, base + 1, n - 1, t - 1);
    }
  }

  lemma WordPow()
    ensures Pow2(WORD_BITS) == WORD
  {
    var h := WORD_BITS / 2;
    Pow2Add(h, h);
    Pow2Add(h / 2, h / 2);
    assert Pow2(8) == 256;
  }

  lemma WordBound(s: set<nat>, base: nat)
    ensures BitsIn(s, base, WORD_BITS) < WORD
  {
    BitsInBound(s, base, WORD_BITS);
    WordPow();
  }

  lemma {:induction false} WordAt(s: set<nat>, n: nat, j: nat)
    requires j < n
    ensures Get(Words(s, n), 4 * j) == BitsIn(s, 32 * j, WORD_BITS)
    decreases n
  {
    hide FromLE, ToLE, BitsIn;
    var w := ToLE(BitsIn(s, 32 * (n - 1), WORD_BITS), 4);
    if j < n - 1 {
      WordAt(s, n - 1, j);
      assert Words(s, n)[4 * j..4 * j + 4] == Words(s, n - 1)[4 * j..4 * j + 4];
    } else {
      assert Words(s, n)[4 * j..4 * j + 4] == w;
      WordBound(s, 32 * j);
      FourBytes();
      FromLEOfToLE(BitsIn(s, 32 * j, WORD_BITS), 4);
    }
  }

  /** Mask bit i is set exactly for the fields. */
  lemma MaskBit(s: set<nat>, n: nat, i: nat)
    requires i < 32 * n
    ensures IsSet(Words(s, n), i) <==> i in s
  {
    hide FromLE, BitsIn, Words, Get, Bit;
    var j, t := i / 32, i % 32;
    WordAt(s, n, j);
    BitOfBitsIn(s, 32 * j, WORD_BITS, t);
  }

  lemma {:induction false} SetBitsExact(s: set<nat>, n: nat, k: nat)
    requires k <= 32 * n
    ensures Climbs(SetBits(Words(s, n), k))
    ensures forall i: nat :: i in SetBits(Words(s, n), k) <==> i < k && i in s
    decreases k
  {
    hide IsSet, Words;
    if k > 0 {
      SetBitsExact(s, n, k - 1);
      MaskBit(s, n, k - 1);
      var front := SetBits(Words(s, n), k - 1);
      forall i | 0 <= i < |front| ensures front[i] < k - 1 {
        assert front[i] in front;
      }
    }
  }

  // ---- laws ---------------------------------------------------------------------------------------

  lemma IdsRead(f: Fields, n: nat)
    requires Covered(f, n)
    ensures SetBits(Words(f.Keys, n), 32 * n) == Ascending(f.Keys)
  {
    hide SetBits, Words;
    var ids := SetBits(Words(f.Keys, n), 32 * n);
    SetBitsExact(f.Keys, n, 32 * n);
    assert Members(ids) == f.Keys;
    AscendingIsUnique(ids);
  }

  lemma ValuesSplit(f: Fields, ids: seq<nat>, more: seq<byte>, k: nat)
    requires FourByte(f) && |ids| == k + 1 && forall i | 0 <= i < |ids| :: ids[i] in f
    ensures var s := Values(f, ids) + more;
            s == Values(f, ids[..k]) + (f[ids[k]] + more) && s[4 * k..4 * k + 4] == f[ids[k]]
  {
    var front := Values(f, ids[..k]);
    assert Values(f, ids) == front + f[ids[k]];
  }

  lemma {:induction false} TakenOfValues(f: Fields, ids: seq<nat>, more: seq<byte>)
    requires FourByte(f) && forall k | 0 <= k < |ids| :: ids[k] in f
    ensures Taken(ids, Values(f, ids) + more) == map i | i in f && i in ids :: f[i]
    decreases |ids|
  {
    hide FourByte, Values;
    if ids != [] {
      var k := |ids| - 1;
      var front := ids[..k];
      TakenOfValues(f, front, f[ids[k]] + more);
      ValuesSplit(f, ids, more, k);
      assert ids == front + [ids[k]];
    }
  }

  /** A block is read back to its fields, whatever follows it. */
  lemma BlockRoundTrip(f: Fields, n: nat, more: seq<byte>)
    requires FourByte(f) && Covered(f, n) && n < 256
    ensures Read(Printed(f, n) + more) == Some((f, more))
  {
    hide SetBits, Words, Values, Taken, Ascending, FourByte, Printed, Read, Covered;
    KeysListed(f);
    var ids := Ascending(f.Keys);
    PrintedParts(f, n, more);
    IdsRead(f, n);
    AscendingIsSorted(f.Keys);
    TakenOfValues(f, ids, more);
    var rest := Values(f, ids) + more;
    ReadMeans(Printed(f, n) + more, n, ids, rest);
    assert rest[4 * |ids|..] == more;
    assert (map i | i in f && i in ids :: f[i]) == f;
  }

  /** The set bits of the mask are the field indices, ascending. */
  lemma MaskIsFields(f: Fields, n: nat)
    requires Covered(f, n)
    ensures SetBits(Words(f.Keys, n), 32 * n) == Ascending(f.Keys) && |Ascending(f.Keys)| == |f|
  {
    hide SetBits, Words, Ascending, Covered, IsSet;
    IdsRead(f, n);
    AscendingSize(f.Keys);
  }

  /** A block is its word count, its mask, and as many four-byte values as there are fields. */
  lemma BlockSize(f: Fields, n: nat)
    requires FourByte(f) && n < 256
    ensures |Printed(f, n)| == 1 + 4 * n + 4 * |f|
    ensures Printed(f, n)[0] == n && Printed(f, n)[1..1 + 4 * n] == Words(f.Keys, n)
  {
    hide Words, Values, Ascending, FourByte, Printed;
    PrintedWords(f, n);
    AscendingSize(f.Keys);
  }

  lemma PrintedWords(f: Fields, n: nat)
    requires FourByte(f) && n < 256
    ensures |Printed(f, n)| == 1 + 4 * n + 4 * |Ascending(f.Keys)| && Printed(f, n)[1..1 + 4 * n] == Words(f.Keys, n)
    ensures Printed(f, n)[0] == n
  {
    hide Words, Values, Ascending, FourByte;
    KeysListed(f);
  }

  lemma PrintedParts(f: Fields, n: nat, more: seq<byte>)
    requires FourByte(f) && n < 256
    ensures forall k | 0 <= k < |Ascending(f.Keys)| :: Ascending(f.Keys)[k] in f
    ensures |Printed(f, n)| == 1 + 4 * n + 4 * |Ascending(f.Keys)|
    ensures var s := Printed(f, n) + more;
            s[0] == n && s[1..1 + 4 * n] == Words(f.Keys, n) && s[1 + 4 * n..] == Values(f, Ascending(f.Keys)) + more
  {
    hide Words, Values, Ascending, FourByte;
    KeysListed(f);
  }

  lemma ReadMeans(s: seq<byte>, n: nat, ids: seq<nat>, rest: seq<byte>)
    requires s != [] && s[0] == n && |s| >= 1 + 4 * n && rest == s[1 + 4 * n..]
    requires ids == SetBits(s[1..1 + 4 * n], 32 * n) && 4 * |ids| <= |rest|
    ensures Read(s) == Some((Taken(ids, rest), rest[4 * |ids|..]))
  {
    hide SetBits, Taken;
  }

  lemma {:induction false} AscendingSize(s: set<nat>)
    ensures |Ascending(s)| == |s|
  {
    if s != {} {
      AscendingSize(s - {Least(s)});
    }
  }

  /** No two field maps share a block, nor is one's block the start of another's. */
  lemma BlocksApart(f: Fields, n: nat, g: Fields, m: nat, more: seq<byte>)
    requires FourByte(f) && Covered(f, n) && n < 256 && FourByte(g) && Covered(g, m) && m < 256
    requires Printed(f, n) + more == Printed(g, m)
    ensures f == g && n == m && more == []
  {
    hide Read, Words, Values, FourByte, Covered;
    BlockRoundTrip(f, n, more);
    BlockRoundTrip(g, m, []);
    assert Printed(g, m) + [] == Printed(g, m);
    assert (Printed(f, n) + more)[0] == n && Printed(g, m)[0] == m;
  }

  // ---- building -------------------------------------------------------------------------------------

  /** How many mask words: enough for the highest field and for the object's whole size, if that is given. */
  function WordCount(highest: nat, size: nat): (n: nat)
    ensures highest < 32 * n && size <= 32 * n
    ensures forall m: nat | highest < 32 * m && size <= 32 * m :: n <= m
  {
    var need := highest / 32 + 1;
    if size != 0 && (size + 31) / 32 > need then (size + 31) / 32 else need
  }

  lemma {:induction false} BitsInMore(s: set<nat>, x: nat, base: nat, n: nat)
    requires x !in s
    ensures BitsIn(s + {x}, base, n) == BitsIn(s, base, n) + if base <= x < base + n then Pow2(x - base) else 0
    decreases n
  {
    if n > 0 {
      BitsInMore(s, x, base + 1, n - 1);
      if base + 1 <= x < base + n {
        assert Pow2(x - base) == 2 * Pow2(x - base - 1);
      }
    }
  }

  lemma {:induction false} BitsInNone(base: nat, n: nat)
    ensures BitsIn({}, base, n) == 0
    decreases n
  {
    if n > 0 {
      BitsInNone(base + 1, n - 1);
    }
  }

  method Highest(f: Fields) returns (h: nat)
    requires f != map[]
    ensures h in f && forall i | i in f :: i <= h
  {
    h :| h in f;
    var todo := f.Keys - {h};
    while todo != {}
      invariant todo <= f.Keys && h in f && forall i | i in f && i !in todo :: i <= h
      decreases todo
    {
      var i :| i in todo;
      h := if i > h then i else h;
      todo := todo - {i};
    }
  }

  /** The mask, field by field in any order. */
  method MaskWords(f: Fields, n: nat) returns (words: seq<byte>)
    requires Covered(f, n)
    ensures words == Words(f.Keys, n)
  {
    hide BitsIn, Pow2, ToLE;
    var mask := new nat[n](_ => 0);
    var todo := f.Keys;
    ghost var done: set<nat> := {};
    forall j | 0 <= j < n ensures mask[j] == BitsIn(done, 32 * j, WORD_BITS) {
      BitsInNone(32 * j, WORD_BITS);
    }
    while todo != {}
      invariant todo <= f.Keys && done == f.Keys - todo
      invariant forall j | 0 <= j < n :: mask[j] == BitsIn(done, 32 * j, WORD_BITS)
      decreases todo
    {
      var i :| i in todo;
      forall j | 0 <= j < n
        ensures BitsIn(done + {i}, 32 * j, WORD_BITS)
             == BitsIn(done, 32 * j, WORD_BITS) + if j == i / 32 then Pow2(i % 32) else 0
      {
        BitsInMore(done, i, 32 * j, WORD_BITS);
      }
      mask[i / 32] := mask[i / 32] + Pow2(i % 32);
      todo := todo - {i};
      done := done + {i};
    }
    assert done == f.Keys;
    words := [];
    for j := 0 to n
      invariant words == Words(f.Keys, j)
      invariant forall k | 0 <= k < n :: mask[k] == BitsIn(f.Keys, 32 * k, WORD_BITS)
    {
      words := words + ToLE(mask[j], 4);
    }
  }

  /** `build_values_block`; None where it raises: no field to take the highest of, or too many words for a byte. */
  method BuildValuesBlock(f: Fields, size: nat) returns (out: Option<seq<byte>>)
    requires FourByte(f)
    ensures f == map[] ==> out.None?
    ensures f != map[] ==> exists h | h in f && (forall i | i in f :: i <= h) ::
              out == if WordCount(h, size) < 256 then Some(Printed(f, WordCount(h, size))) else None
  {
    hide Words, Values, Ascending, FourByte;
    if f == map[] {
      return None;
    }
    var h := Highest(f);
    var n := WordCount(h, size);
    if n >= 256 {
      return None;
    }
    var words := MaskWords(f, n);
    var ids := Ascending(f.Keys);
    KeysListed(f);
    var values := ListValues(f, ids);
    out := Some([n] + words + values);
  }

  /** The values, in the order of the sorted indices. */
  method ListValues(f: Fields, ids: seq<nat>) returns (v: seq<byte>)
    requires FourByte(f) && forall k | 0 <= k < |ids| :: ids[k] in f
    ensures v == Values(f, ids)
  {
    v := [];
    for k := 0 to |ids|
      invariant v == Values(f, ids[..k])
    {
      assert ids[..k + 1][..k] == ids[..k];
      v := v + f[ids[k]];
    }
    assert ids[..|ids|] == ids;
  }
}
