/** Packed guids: a mask of the non-zero bytes, then those bytes; and the spell-target block that starts with one. */
module PackedGuid {
  import opened Bytes
  import opened Dbc

  // ---- packing ------------------------------------------------------------------------------------

  /** Bit i is set when byte i is not zero. */
  function Mask(bs: seq<byte>): (m: nat)
    ensures m < Pow2(|bs|)
  {
    if bs == [] then 0 else (if bs[0] != 0 then 1 else 0) + 2 * Mask(bs[1..])
  }

  function Parts(bs: seq<byte>): (p: seq<byte>)
    ensures |p| <= |bs|
  {
    if bs == [] then [] else (if bs[0] != 0 then [bs[0]] else []) + Parts(bs[1..])
  }

  /** `pack_guid`: of a guid of any width, the low 64 bits. */
  function Packed(guid: nat): (s: seq<byte>)
    ensures 1 <= |s| <= 9
  {
    var bs := ToLE(guid, 8);
    ByteMask(bs);
    [Mask(bs)] + Parts(bs)
  }

  lemma ByteMask(bs: seq<byte>)
    requires |bs| == 8
    ensures Mask(bs) < 256
  {
    assert Pow2(4) == 16 && Pow2(8) == 256;
  }

  // ---- unpacking ------------------------------------------------------------------------------------

  /** n bytes' worth of mask bits, each set bit taking the next byte; None when the bytes run out. */
  function Unpacked(bits: nat, s: seq<byte>, n: nat): Option<nat>
    decreases n
  {
    if n == 0 then Some(0)
    else if bits % 2 == 1 then
      if s == [] then None
      else
        var v := Unpacked(bits / 2, s[1..], n - 1);
        if v.Some? then Some(s[0] + 256 * v.value) else None
    else
      var v := Unpacked(bits / 2, s, n - 1);
      if v.Some? then Some(256 * v.value) else None
  }

  /** The flags of the targets that begin with a packed guid. */
  predicate NamesObject(mask: nat) {
    Bit(mask, 1) == 1 || Bit(mask, 9) == 1 || Bit(mask, 11) == 1 || Bit(mask, 15) == 1 || Bit(mask, 16) == 1
  }

  /** `parse_spell_targets`: the mask, and the guid it was aimed at or 0. */
  function Targets(blob: seq<byte>): (nat, nat) {
    if |blob| < 4 then (0, 0)
    else
      var mask := Get(blob, 0);
      if !NamesObject(mask) || |blob| == 4 then (mask, 0)
      else
        var guid := Unpacked(blob[4], blob[5..], 8);
        (mask, if guid.Some? then guid.value else 0)
  }

  // ---- laws -----------------------------------------------------------------------------------------

  lemma {:induction false} UnpackOfPack(bs: seq<byte>, more: seq<byte>)
    ensures Unpacked(Mask(bs), Parts(bs) + more, |bs|) == Some(FromLE(bs))
  {
    hide Unpacked, Mask, Parts, FromLE;
    Heads(bs);
    if bs == [] {
      UnpackStep(Mask(bs), Parts(bs) + more, 0);
    } else {
      MaskBits(bs);
      UnpackOfPack(bs[1..], more);
      var s := Parts(bs) + more;
      UnpackStep(Mask(bs), s, |bs|);
      if bs[0] != 0 {
        assert s[0] == bs[0] && s[1..] == Parts(bs[1..]) + more;
      } else {
        assert s == Parts(bs[1..]) + more;
      }
    }
  }

  lemma Heads(bs: seq<byte>)
    ensures bs == [] ==> FromLE(bs) == 0
    ensures bs != [] ==> Parts(bs) == (if bs[0] != 0 then [bs[0]] else []) + Parts(bs[1..])
    ensures bs != [] ==> FromLE(bs) == bs[0] + 256 * FromLE(bs[1..])
  {
    hide Mask;
  }

  lemma MaskBits(bs: seq<byte>)
    requires bs != []
    ensures Mask(bs) % 2 == (if bs[0] != 0 then 1 else 0) && Mask(bs) / 2 == Mask(bs[1..])
  {
    hide Mask, Pow2;
    MaskHead(bs);
    var b, m := if bs[0] != 0 then 1 else 0, Mask(bs[1..]);
    assert (b + 2 * m) % 2 == b && (b + 2 * m) / 2 == m;
  }

  lemma MaskHead(bs: seq<byte>)
    requires bs != []
    ensures Mask(bs) == (if bs[0] != 0 then 1 else 0) + 2 * Mask(bs[1..])
  {
    hide Pow2;
  }

  lemma UnpackStep(bits: nat, s: seq<byte>, n: nat)
    ensures n == 0 ==> Unpacked(bits, s, n) == Some(0)
    ensures n > 0 && bits % 2 == 1 && s != [] && Unpacked(bits / 2, s[1..], n - 1).Some? ==>
              Unpacked(bits, s, n) == Some(s[0] + 256 * Unpacked(bits / 2, s[1..], n - 1).value)
    ensures n > 0 && bits % 2 == 0 && Unpacked(bits / 2, s, n - 1).Some? ==>
              Unpacked(bits, s, n) == Some(256 * Unpacked(bits / 2, s, n - 1).value)
  {}

  /** Cut anywhere, the bytes run out. */
  lemma {:induction false} UnpackOfCut(bs: seq<byte>, k: nat)
    requires k < |Parts(bs)|
    ensures Unpacked(Mask(bs), Parts(bs)[..k], |bs|).None?
  {
    if bs != [] {
      var s := Parts(bs)[..k];
      if bs[0] == 0 {
        assert s == Parts(bs[1..])[..k];
        UnpackOfCut(bs[1..], k);
      } else if k > 0 {
        assert s[1..] == Parts(bs[1..])[..k - 1];
        UnpackOfCut(bs[1..], k - 1);
      }
    }
  }

  /** A cast at a guid is parsed back to that guid, whatever follows; a guid wider than 64 bits loses the rest. */
  lemma TargetRoundTrip(mask: nat, guid: nat, more: seq<byte>)
    requires mask < WORD
    ensures Targets(ToLE(mask, 4) + Packed(guid) + more)
         == (mask, if NamesObject(mask) then guid % Pow256(8) else 0)
    ensures guid < Pow256(8) ==> guid % Pow256(8) == guid
  {
    hide NamesObject, ToLE, FromLE, Mask, Parts, Unpacked, Pow256;
    var bs := ToLE(guid, 8);
    ByteMask(bs);
    var blob := ToLE(mask, 4) + Packed(guid) + more;
    assert blob[0..4] == ToLE(mask, 4);
    FourBytes();
    FromLEOfToLE(mask, 4);
    assert blob[4] == Mask(bs) && blob[5..] == Parts(bs) + more;
    UnpackOfPack(bs, more);
    ToLETruncates(guid, 8);
    assert guid < Pow256(8) ==> guid % Pow256(8) == guid;
  }

  /** A block cut short anywhere names nothing: never a part of the guid. */
  lemma CutTargetsNameNothing(mask: nat, guid: nat, k: nat)
    requires mask < WORD && k < |ToLE(mask, 4) + Packed(guid)|
    ensures Targets((ToLE(mask, 4) + Packed(guid))[..k]) == (if k < 4 then 0 else mask, 0)
  {
    hide NamesObject, ToLE, FromLE, Mask, Parts, Unpacked;
    var bs := ToLE(guid, 8);
    ByteMask(bs);
    var whole := ToLE(mask, 4) + Packed(guid);
    var blob := whole[..k];
    if k >= 4 {
      assert blob[0..4] == ToLE(mask, 4);
      FourBytes();
      FromLEOfToLE(mask, 4);
      if k > 4 {
        assert blob[4] == Mask(bs) && blob[5..] == Parts(bs)[..k - 5];
        UnpackOfCut(bs, k - 5);
      }
    }
  }

  /** Different 64-bit guids have different packed forms, and neither is the start of the other. */
  lemma PackedApart(g: nat, h: nat, more: seq<byte>)
    requires g < Pow256(8) && h < Pow256(8) && g != h
    ensures Packed(g) + more != Packed(h)
  {
    hide NamesObject, Targets, Packed, Pow256;
    assert Pow2(1) == 2;
    ObjectMask();
    TargetRoundTrip(2, g, more);
    TargetRoundTrip(2, h, []);
    assert ToLE(2, 4) + Packed(g) + more == ToLE(2, 4) + (Packed(g) + more);
    assert ToLE(2, 4) + Packed(h) + [] == ToLE(2, 4) + Packed(h);
  }

  /** TARGET_FLAG_UNIT. */
  lemma ObjectMask()
    ensures NamesObject(2)
  {
    assert Shr(2, 1) == 1;
  }

  // ---- the loops --------------------------------------------------------------------------------------

  lemma {:induction false} MaskMore(bs: seq<byte>, b: byte)
    ensures Mask(bs + [b]) == Mask(bs) + (if b != 0 then Pow2(|bs|) else 0)
  {
    if bs == [] {
      assert [b][1..] == [];
      assert bs + [b] == [b];
    } else {
      MaskMore(bs[1..], b);
      assert (bs + [b])[1..] == bs[1..] + [b];
    }
  }

  lemma {:induction false} PartsMore(bs: seq<byte>, b: byte)
    ensures Parts(bs + [b]) == Parts(bs) + (if b != 0 then [b] else [])
  {
    if bs == [] {
      assert [b][1..] == [];
      assert bs + [b] == [b];
    } else {
      hide Parts;
      var tail, last := Parts(bs[1..]), if b != 0 then [b] else [];
      PartsMore(bs[1..], b);
      assert (bs + [b])[1..] == bs[1..] + [b];
      Heads(bs);
      Heads(bs + [b]);
      var first := if bs[0] != 0 then [bs[0]] else [];
      assert first + (tail + last) == first + tail + last;
    }
  }

  lemma {:induction false} ByteAt(v: nat, n: nat, i: nat)
    requires i < n
    ensures ToLE(v, n)[i] == (v / Pow256(i)) % 256
    decreases i
  {
    if i > 0 {
      ByteAt(v / 256, n - 1, i - 1);
      DivDiv(v, 256, Pow256(i - 1));
    }
  }

  lemma DivDiv(v: nat, a: nat, b: nat)
    requires a > 0 && b > 0
    ensures a * b > 0 && (v / a) / b == v / (a * b)
  {
    var q, r := (v / a) / b, (v / a) % b;
    assert v == a * (q * b + r) + v % a;
    assert a * (q * b) == q * (a * b);
    assert a * r + v % a < a * b by {
      assert a * r <= a * (b - 1);
    }
    assert a * b > 0;
    ModUnique(v, a * b, q, a * r + v % a);
  }

  /** `pack_guid`. */
  method PackGuid(guid: nat) returns (s: seq<byte>)
    ensures s == Packed(guid)
  {
    hide ToLE, Mask, Parts, Pow256, Pow2;
    var mask: nat := 0;
    var parts: seq<byte> := [];
    ghost var bs := ToLE(guid, 8);
    ByteMask(bs);
    MaskNone();
    assert bs[..0] == [];
    for i := 0 to 8
      invariant mask == Mask(bs[..i]) && parts == Parts(bs[..i])
    {
      ByteAt(guid, 8, i);
      MaskMore(bs[..i], bs[i]);
      PartsMore(bs[..i], bs[i]);
      assert bs[..i + 1] == bs[..i] + [bs[i]];
      var b := (guid / Pow256(i)) % 256;
      if b != 0 {
        mask := mask + Pow2(i);
        parts := parts + [b];
      }
    }
    assert bs[..8] == bs;
    s := [mask] + parts;
  }

  lemma MaskNone()
    ensures Mask([]) == 0 && Parts([]) == []
  {}

  /** What is left to read, above what has been read. */
  function Onward(bits: nat, s: seq<byte>, i: nat, guid: nat): Option<nat>
    requires i <= 8
  {
    var v := Unpacked(Shr(bits, i), s, 8 - i);
    if v.Some? then Some(guid + Pow256(i) * v.value) else None
  }

  lemma OnwardStep(bits: nat, s: seq<byte>, i: nat, guid: nat)
    requires i < 8
    ensures Onward(bits, s, i, guid)
         == if Bit(bits, i) == 0 then Onward(bits, s, i + 1, guid)
            else if s == [] then None else Onward(bits, s[1..], i + 1, guid + s[0] * Pow256(i))
  {
    hide Shr;
    ShrStep(bits, i);
    var p := Pow256(i);
    assert Pow256(i + 1) == 256 * p;
    if Bit(bits, i) == 0 {
      var v := Unpacked(Shr(bits, i + 1), s, 8 - i - 1);
      if v.Some? {
        Times256(p, 0, v.value);
      }
    } else if s != [] {
      var v := Unpacked(Shr(bits, i + 1), s[1..], 8 - i - 1);
      if v.Some? {
        Times256(p, s[0], v.value);
      }
    }
  }

  lemma Times256(p: nat, b: nat, v: nat)
    ensures p * (b + 256 * v) == b * p + 256 * p * v
  {}

  /** `parse_spell_targets`. */
  method ParseSpellTargets(blob: seq<byte>) returns (mask: nat, guid: nat)
    ensures (mask, guid) == Targets(blob)
  {
    hide NamesObject, FromLE, Unpacked, Pow256, Shr, Bit, Onward;
    if |blob| < 4 {
      return 0, 0;
    }
    mask, guid := Get(blob, 0), 0;
    if !NamesObject(mask) {
      return;
    }
    var pos := 4;
    if pos >= |blob| {
      return;
    }
    var bits := blob[pos];
    pos := pos + 1;
    OnwardEnds(bits, blob[pos..], guid);
    for i := 0 to 8
      invariant 5 <= pos <= |blob|
      invariant Unpacked(bits, blob[5..], 8) == Onward(bits, blob[pos..], i, guid)
    {
      OnwardStep(bits, blob[pos..], i, guid);
      if Bit(bits, i) == 1 {
        if pos >= |blob| {
          return mask, 0;
        }
        guid := guid + blob[pos] * Pow256(i);
        assert blob[pos..][1..] == blob[pos + 1..];
        pos := pos + 1;
      }
    }
    OnwardEnds(bits, blob[pos..], guid);
  }

  lemma OnwardEnds(bits: nat, s: seq<byte>, guid: nat)
    ensures Onward(bits, s, 0, 0) == Unpacked(bits, s, 8)
    ensures Onward(bits, s, 8, guid) == Some(guid)
  {
    hide Shr;
    assert Pow256(0) == 1;
    ShrZero(bits);
  }

  lemma ShrZero(v: nat)
    ensures Shr(v, 0) == v
  {}
}
