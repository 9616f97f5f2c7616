/** The captured realm list, replayed with every realm pointed at the local world. */
module RealmList {
  import opened Bytes

  const LIST_OPCODE: byte := 0x10
  const LIMIT: nat := 0x1_0000
  const TRAILER: seq<byte> := [0x10, 0x00]

  datatype Realm = Realm(icon: byte, lock: byte, flags: byte, name: seq<byte>, addr: seq<byte>,
                         pop: seq<byte>, chars: byte, category: byte, id: byte, build: seq<byte>)

  datatype List = List(unused: seq<byte>, realms: seq<Realm>, trailer: seq<byte>)

  /** The flag that says five version bytes follow. */
  predicate HasBuild(r: Realm) {
    Bit(r.flags, 2) == 1
  }

  predicate ValidRealm(r: Realm) {
    0 !in r.name && 0 !in r.addr && |r.pop| == 4 && |r.build| == if HasBuild(r) then 5 else 0
  }

  predicate ValidList(l: List) {
    && |l.unused| == 4 && |l.realms| < LIMIT && |l.trailer| == 2
    && forall i | 0 <= i < |l.realms| :: ValidRealm(l.realms[i])
  }

  // ---- printing -----------------------------------------------------------------------------------

  function RealmBytes(r: Realm): seq<byte> {
    [r.icon, r.lock, r.flags] + r.name + [0] + r.addr + [0] + r.pop + [r.chars, r.category, r.id] + r.build
  }

  function RealmsBytes(rs: seq<Realm>): seq<byte>
    decreases |rs|
  {
    if rs == [] then [] else RealmBytes(rs[0]) + RealmsBytes(rs[1..])
  }

  function Payload(l: List): seq<byte> {
    l.unused + ToLE(|l.realms|, 2) + RealmsBytes(l.realms) + l.trailer
  }

  function Wrapped(payload: seq<byte>): seq<byte> {
    [LIST_OPCODE] + ToLE(|payload|, 2) + payload
  }

  // ---- reading --------------------------------------------------------------------------------------

  /** What is left from a position that may lie past the end. */
  function Drop(s: seq<byte>, p: nat): (t: seq<byte>)
    ensures |t| <= |s|
  {
    if p <= |s| then s[p..] else []
  }

  /** One realm and how far the cursor moves. Only the version bytes may be cut short by the end of the list. */
  function ReadRealm(s: seq<byte>): (r: Option<(Realm, nat)>)
    ensures r.Some? ==> 0 !in r.value.0.name && 0 !in r.value.0.addr && |r.value.0.pop| == 4
    ensures r.Some? ==> |r.value.0.build| <= if HasBuild(r.value.0) then 5 else 0
  {
    if |s| < 3 then None
    else
      var z := FirstZero(s, 3);
      if z.None? then None
      else
        var y := FirstZero(s, z.value + 1);
        if y.None? || |s| < y.value + 8 then None
        else
          var q := y.value + 1;
          var r := Realm(s[0], s[1], s[2], s[3..z.value], s[z.value + 1..y.value],
                         s[q..q + 4], s[q + 4], s[q + 5], s[q + 6], []);
          if HasBuild(r) then Some((r.(build := Slice(s, q + 7, q + 12)), q + 12)) else Some((r, q + 7))
  }

  function ReadRealms(s: seq<byte>, n: nat): (l: Option<(seq<Realm>, seq<byte>)>)
    ensures l.Some? ==> |l.value.0| == n
    decreases n
  {
    if n == 0 then Some(([], s))
    else
      match ReadRealm(s)
      case None => None
      case Some((r, used)) =>
        var rest := ReadRealms(Drop(s, used), n - 1);
        if rest.None? then None else Some(([r] + rest.value.0, rest.value.1))
  }

  function BodyOf(raw: seq<byte>): seq<byte> {
    if raw != [] && raw[0] == LIST_OPCODE then Drop(raw, 3) else raw
  }

  /** Counts and headers of a short body are what its few bytes say. */
  function ReadList(body: seq<byte>): Option<List> {
    var l := ReadRealms(Drop(body, 6), FromLE(Slice(body, 4, 6)));
    if l.None? then None
    else Some(List(Slice(body, 0, 4), l.value.0, if |l.value.1| >= 2 then l.value.1[..2] else TRAILER))
  }

  // ---- the rebuild ------------------------------------------------------------------------------------

  /** `flags & ~0x02`. */
  function Online(flags: byte): byte {
    if Bit(flags, 1) == 1 && flags >= 2 then flags - 2 else flags
  }

  function Local(r: Realm, world: seq<byte>): Realm {
    r.(lock := 0, flags := Online(r.flags), addr := if r.addr != [] then world else [])
  }

  function Localized(l: List, world: seq<byte>): List {
    l.(realms := LocalRealms(l.realms, world))
  }

  function LocalRealms(rs: seq<Realm>, world: seq<byte>): (out: seq<Realm>)
    ensures |out| == |rs|
  {
    seq(|rs|, i requires 0 <= i < |rs| => Local(rs[i], world))
  }

  const REALM_NAME: string := "Area 52 - Free-Pick"
  const REALM_META: string := "Area 52 - Free-Pick!1!0!Area52!true!1!6!13977862"

  function Ascii(s: string): (b: seq<byte>)
    ensures |b| == |s|
  {
    seq(|s|, i requires 0 <= i < |s| => s[i] as int % 256)
  }

  /** The fallback list: the realm and its metadata twin. */
  function Minimal(world: seq<byte>): List {
    List([0, 0, 0, 0],
         [Realm(1, 0, 0, Ascii(REALM_NAME), world, [0, 0, 0, 0], 1, 1, 11, []),
          Realm(1, 0, 0, Ascii(REALM_META), [], [0, 0, 0, 0], 1, 27, 62, [])],
         [0x02, 0x00])
  }

  /** `_rebuild_local_realmlist`, given the capture. */
  function Rebuilt(raw: seq<byte>, world: seq<byte>): seq<byte> {
    match ReadList(BodyOf(raw))
    case None => Wrapped(Payload(Minimal(world)))
    case Some(l) =>
      var payload := Payload(Localized(l, world));
      if |payload| < LIMIT then Wrapped(payload) else Wrapped(Payload(Minimal(world)))
  }

  // ---- reading back -------------------------------------------------------------------------------------

  /** Reading a printed realm, whatever follows: the version bytes are the five next bytes. */
  lemma ReadRealmOf(r: Realm, more: seq<byte>)
    requires 0 !in r.name && 0 !in r.addr && |r.pop| == 4
    ensures var q := |RealmBytes(r)| - |r.build|;
            ReadRealm(RealmBytes(r) + more)
              == Some(if HasBuild(r) then (r.(build := Slice(r.build + more, 0, 5)), q + 5) else (r.(build := []), q))
  {
    hide HasBuild, RealmBytes, Slice, FirstZero;
    var s := RealmBytes(r) + more;
    var z := 3 + |r.name|;
    var y := z + 1 + |r.addr|;
    NamePart(r, more);
    FirstZeroIs(s, 3, z);
    FirstZeroIs(s, z + 1, y);
    var q := y + 1;
    RealmParts(r, more, z, y);
    assert r.(build := [])
        == Realm(s[0], s[1], s[2], s[3..z], s[z + 1..y], s[q..q + 4], s[q + 4], s[q + 5], s[q + 6], []);
    SliceTail(s, q + 7, 5);
    BuildFlag(r);
  }

  lemma SliceTail(s: seq<byte>, at: nat, n: nat)
    requires at <= |s|
    ensures Slice(s, at, at + n) == Slice(s[at..], 0, n)
  {}

  lemma RealmParts(r: Realm, more: seq<byte>, z: nat, y: nat)
    requires z == 3 + |r.name| && y == z + 1 + |r.addr| && |r.pop| == 4
    ensures var s, q := RealmBytes(r) + more, y + 1;
            && |RealmBytes(r)| == q + 7 + |r.build|
            && s[3..z] == r.name && s[z + 1..y] == r.addr && s[q..q + 4] == r.pop && s[q + 7..] == r.build + more
            && s[0] == r.icon && s[1] == r.lock && s[2] == r.flags
            && s[q + 4] == r.chars && s[q + 5] == r.category && s[q + 6] == r.id
  {}

  lemma ReadRealmOfBytes(r: Realm, more: seq<byte>)
    requires ValidRealm(r)
    ensures ReadRealm(RealmBytes(r) + more) == Some((r, |RealmBytes(r)|))
    ensures Drop(RealmBytes(r) + more, |RealmBytes(r)|) == more
  {
    hide HasBuild, ReadRealm, RealmBytes;
    ReadRealmOf(r, more);
    assert (r.build + more)[..|r.build|] == r.build;
  }

  lemma BuildFlag(r: Realm)
    ensures HasBuild(r.(build := [])) == HasBuild(r)
  {}

  /** The two terminators are the first zeros after the names' starts. */
  lemma NamePart(r: Realm, more: seq<byte>)
    requires 0 !in r.name && 0 !in r.addr
    ensures var s, z := RealmBytes(r) + more, 3 + |r.name|;
            && z + 1 + |r.addr| < |s| && s[z] == 0 && s[z + 1 + |r.addr|] == 0
            && (forall i | 3 <= i < z :: s[i] != 0)
            && (forall i | z + 1 <= i < z + 1 + |r.addr| :: s[i] != 0)
  {
    var s, z := RealmBytes(r) + more, 3 + |r.name|;
    forall i | 3 <= i < z ensures s[i] != 0 {
      assert s[i] == r.name[i - 3];
    }
    forall i | z + 1 <= i < z + 1 + |r.addr| ensures s[i] != 0 {
      assert s[i] == r.addr[i - z - 1];
    }
  }

  lemma {:induction false} ReadRealmsOfBytes(rs: seq<Realm>, more: seq<byte>)
    requires forall i | 0 <= i < |rs| :: ValidRealm(rs[i])
    ensures ReadRealms(RealmsBytes(rs) + more, |rs|) == Some((rs, more))
    decreases |rs|
  {
    hide ReadRealm, RealmBytes, ValidRealm, Drop;
    if rs == [] {
      assert [] + more == more;
    } else {
      var tail := RealmsBytes(rs[1..]) + more;
      assert RealmsBytes(rs) + more == RealmBytes(rs[0]) + tail;
      ReadRealmOfBytes(rs[0], tail);
      ReadRealmsOfBytes(rs[1..], more);
      assert rs == [rs[0]] + rs[1..];
    }
  }

  lemma TwoBytes(n: nat)
    requires n < LIMIT
    ensures FromLE(ToLE(n, 2)) == n
  {
    assert Pow256(1) == 256;
    assert Pow256(2) == LIMIT;
    FromLEOfToLE(n, 2);
  }

  lemma ReadListOfPayload(l: List)
    requires ValidList(l)
    ensures ReadList(Payload(l)) == Some(l)
  {
    hide ReadRealms, RealmsBytes, ValidRealm, ToLE, FromLE;
    var body := Payload(l);
    TwoBytes(|l.realms|);
    assert body[4..6] == ToLE(|l.realms|, 2) && body[..4] == l.unused;
    assert body[6..] == RealmsBytes(l.realms) + l.trailer;
    ReadRealmsOfBytes(l.realms, l.trailer);
    assert l.trailer[..2] == l.trailer;
  }

  lemma BodyOfWrapped(payload: seq<byte>)
    ensures BodyOf(Wrapped(payload)) == payload
  {
    hide ToLE;
  }

  // ---- laws ---------------------------------------------------------------------------------------------

  lemma {:induction false} ShrShr(v: nat, i: nat)
    ensures Shr(v, i + 2) == Shr(v / 4, i)
  {
    assert Shr(v, i + 2) == Shr(v / 2, i + 1) == Shr((v / 2) / 2, i);
  }

  lemma LowBits(v: nat)
    ensures Bit(v, 0) == v % 2 && Bit(v, 1) == (v / 2) % 2
  {
    assert Shr(v, 1) == Shr(v / 2, 0);
  }

  /** Only the offline bit is cleared. */
  lemma OnlineClearsOneBit(flags: byte, i: nat)
    ensures Bit(Online(flags), i) == if i == 1 then 0 else Bit(flags, i)
  {
    hide Bit;
    var on := Online(flags);
    LowBits(flags);
    LowBits(on);
    assert on / 4 == flags / 4 && on % 4 == flags % 2;
    if i >= 2 {
      HighBits(flags, i);
      HighBits(on, i);
    }
  }

  lemma HighBits(v: nat, i: nat)
    requires i >= 2
    ensures Bit(v, i) == Bit(v / 4, i - 2)
  {
    ShrShr(v, i - 2);
  }

  lemma LocalValid(r: Realm, world: seq<byte>)
    requires ValidRealm(r) && 0 !in world
    ensures ValidRealm(Local(r, world)) && Local(Local(r, world), world) == Local(r, world)
    ensures HasBuild(Local(r, world)) == HasBuild(r)
  {
    OnlineClearsOneBit(r.flags, 2);
    OnlineClearsOneBit(r.flags, 1);
  }

  lemma LocalizedValid(l: List, world: seq<byte>)
    requires ValidList(l) && 0 !in world
    ensures ValidList(Localized(l, world)) && Localized(Localized(l, world), world) == Localized(l, world)
  {
    hide ValidRealm, Local;
    var m := Localized(l, world);
    forall i | 0 <= i < |l.realms| ensures ValidRealm(m.realms[i]) && Local(m.realms[i], world) == m.realms[i] {
      LocalValid(l.realms[i], world);
    }
    assert LocalRealms(m.realms, world) == m.realms;
  }

  /** What the rebuild keeps of a realm, field by field, and what it sets. */
  ghost predicate Redirected(r: Realm, s: Realm, world: seq<byte>) {
    && s.icon == r.icon && s.name == r.name && s.pop == r.pop && s.chars == r.chars && s.category == r.category
    && s.id == r.id && s.build == r.build && s.lock == 0
    && s.addr == (if r.addr == [] then [] else world)
    && (forall i: nat :: Bit(s.flags, i) == if i == 1 then 0 else Bit(r.flags, i))
  }

  /** Parsing the rebuilt list of a well-formed capture gives the same realms in order, each redirected; the
      outer size is exact. A list too long for its size field becomes the fallback. */
  lemma RebuiltReadsBack(l: List, world: seq<byte>)
    requires ValidList(l) && 0 !in world
    ensures var out, payload := Rebuilt(Wrapped(Payload(l)), world), Payload(Localized(l, world));
            if |payload| >= LIMIT then out == Wrapped(Payload(Minimal(world)))
            else
              && FromLE(out[1..3]) == |out| - 3
              && ReadList(BodyOf(out)) == Some(Localized(l, world))
              && forall i | 0 <= i < |l.realms| :: Redirected(l.realms[i], Localized(l, world).realms[i], world)
  {
    hide ReadList, Payload, ValidRealm, ToLE, FromLE, Bit, Online;
    BodyOfWrapped(Payload(l));
    ReadListOfPayload(l);
    LocalizedValid(l, world);
    var payload := Payload(Localized(l, world));
    if |payload| < LIMIT {
      TwoBytes(|payload|);
      assert Wrapped(payload)[1..3] == ToLE(|payload|, 2);
      BodyOfWrapped(payload);
      ReadListOfPayload(Localized(l, world));
      forall i: nat, f: byte ensures Bit(Online(f), i) == if i == 1 then 0 else Bit(f, i) {
        OnlineClearsOneBit(f, i);
      }
    }
  }

  // ---- rebuilding again ------------------------------------------------------------------------------

  /** A realm as the reader may deliver it: only the version bytes can be short. */
  ghost predicate NearlyValid(r: Realm) {
    0 !in r.name && 0 !in r.addr && |r.pop| == 4 && |r.build| <= if HasBuild(r) then 5 else 0
  }

  /** The capture ends inside the last realm's version bytes. */
  predicate CutBuild(rs: seq<Realm>) {
    rs != [] && HasBuild(rs[|rs| - 1]) && |rs[|rs| - 1].build| < 5
  }

  lemma ReadRealmNearly(s: seq<byte>)
    requires ReadRealm(s).Some?
    ensures var (r, used) := ReadRealm(s).value;
            NearlyValid(r) && (!ValidRealm(r) ==> HasBuild(r) && |r.build| < 5 && Drop(s, used) == [])
  {}

  lemma {:induction false} ReadRealmsNearly(s: seq<byte>, n: nat)
    requires ReadRealms(s, n).Some?
    ensures var (rs, rest) := ReadRealms(s, n).value;
            && (forall i | 0 <= i < n :: NearlyValid(rs[i]))
            && (forall i | 0 <= i < n - 1 :: ValidRealm(rs[i]))
            && (n > 0 && !ValidRealm(rs[n - 1]) ==> CutBuild(rs) && rest == [])
            && (n > 0 && ValidRealm(rs[n - 1]) ==> !CutBuild(rs))
    decreases n
  {
    hide ReadRealm, NearlyValid, HasBuild, Drop;
    if n > 0 {
      var (r, used) := ReadRealm(s).value;
      ReadRealmNearly(s);
      var t := Drop(s, used);
      ReadRealmsNearly(t, n - 1);
      if n > 1 {
        MoreToRead(t, n - 1);
      }
    }
  }

  lemma MoreToRead(s: seq<byte>, n: nat)
    requires n > 0 && ReadRealms(s, n).Some?
    ensures s != []
  {}

  lemma ReadListShape(body: seq<byte>)
    requires ReadList(body).Some?
    ensures var l := ReadList(body).value;
            && |l.realms| < LIMIT && |l.trailer| == 2
            && (CutBuild(l.realms) ==> l.trailer == TRAILER)
            && (!CutBuild(l.realms) ==> forall i | 0 <= i < |l.realms| :: ValidRealm(l.realms[i]))
            && (forall i | 0 <= i < |l.realms| - 1 :: ValidRealm(l.realms[i]))
            && (forall i | 0 <= i < |l.realms| :: NearlyValid(l.realms[i]))
            && |l.unused| <= 4 && (|l.unused| < 4 ==> l.realms == [] && l.trailer == TRAILER)
  {
    hide ReadRealms, ValidRealm, NearlyValid, HasBuild, FromLE, CutBuild;
    var n := FromLE(Slice(body, 4, 6));
    CountBound(Slice(body, 4, 6));
    ReadRealmsNearly(Drop(body, 6), n);
    if n == 0 {
      NoneCut(Drop(body, 6));
    } else {
      MoreToRead(Drop(body, 6), n);
    }
  }

  lemma NoneCut(s: seq<byte>)
    ensures !CutBuild([]) && ReadRealms(s, 0) == Some(([], s))
  {}

  lemma CountBound(s: seq<byte>)
    requires |s| <= 2
    ensures FromLE(s) < LIMIT
  {
    ToLEOfFromLE(s);
    assert Pow256(0) == 1 && Pow256(1) == 256 && Pow256(2) == LIMIT;
  }

  lemma {:induction false} RealmsBytesMore(rs: seq<Realm>, r: Realm)
    ensures RealmsBytes(rs + [r]) == RealmsBytes(rs) + RealmBytes(r)
    decreases |rs|
  {
    hide RealmBytes;
    if rs == [] {
      assert [r][1..] == [] && rs + [r] == [r];
      assert RealmsBytes([r]) == RealmBytes(r) + [];
    } else {
      RealmsBytesMore(rs[1..], r);
      assert (rs + [r])[1..] == rs[1..] + [r];
      assert RealmBytes(rs[0]) + (RealmsBytes(rs[1..]) + RealmBytes(r))
          == RealmBytes(rs[0]) + RealmsBytes(rs[1..]) + RealmBytes(r);
    }
  }

  /** The version bytes a cut realm takes from the trailer printed behind it. */
  function Swollen(r: Realm): Realm {
    r.(build := Slice(r.build + TRAILER, 0, 5))
  }

  lemma ReadRealmOfCut(r: Realm)
    requires NearlyValid(r) && HasBuild(r) && |r.build| < 5
    ensures ReadRealm(RealmBytes(r) + TRAILER) == Some((Swollen(r), |RealmBytes(r)| - |r.build| + 5))
    ensures |Drop(RealmBytes(r) + TRAILER, |RealmBytes(r)| - |r.build| + 5)| < 2
    ensures |RealmBytes(r)| < |RealmBytes(Swollen(r))| <= |RealmBytes(r)| + 5
  {
    hide HasBuild, ReadRealm;
    ReadRealmOf(r, TRAILER);
  }

  lemma {:induction false} ReadRealmsOfCut(rs: seq<Realm>, r: Realm)
    requires forall i | 0 <= i < |rs| :: ValidRealm(rs[i])
    requires NearlyValid(r) && HasBuild(r) && |r.build| < 5
    ensures var l := ReadRealms(RealmsBytes(rs + [r]) + TRAILER, |rs| + 1);
            l.Some? && l.value.0 == rs + [Swollen(r)] && |l.value.1| < 2
    decreases |rs|
  {
    hide ReadRealm, RealmBytes, ValidRealm, Drop, HasBuild, NearlyValid, Swollen;
    RealmsBytesMore(rs, r);
    if rs == [] {
      assert [] + RealmBytes(r) + TRAILER == RealmBytes(r) + TRAILER;
      ReadRealmOfCut(r);
    } else {
      var tail := RealmsBytes(rs[1..] + [r]) + TRAILER;
      assert (rs + [r])[1..] == rs[1..] + [r];
      assert RealmsBytes(rs + [r]) + TRAILER == RealmBytes(rs[0]) + tail;
      ReadRealmOfBytes(rs[0], tail);
      ReadRealmsOfCut(rs[1..], r);
      assert rs + [Swollen(r)] == [rs[0]] + (rs[1..] + [Swollen(r)]);
    }
  }

  /** A list with a cut last realm swells each time it is read back. */
  lemma CutSwells(l: List)
    requires |l.unused| == 4 && |l.realms| < LIMIT && l.trailer == TRAILER && CutBuild(l.realms)
    requires forall i | 0 <= i < |l.realms| - 1 :: ValidRealm(l.realms[i])
    requires forall i | 0 <= i < |l.realms| :: NearlyValid(l.realms[i])
    ensures var m := ReadList(Payload(l));
            && m.Some? && |m.value.realms| == |l.realms|
            && (forall i | 0 <= i < |l.realms| - 1 :: m.value.realms[i] == l.realms[i])
            && m.value.realms[|l.realms| - 1] == Swollen(l.realms[|l.realms| - 1])
            && |Payload(l)| < |Payload(m.value)| <= |Payload(l)| + 5
  {
    hide ReadRealms, RealmsBytes, ValidRealm, NearlyValid, ToLE, FromLE, RealmBytes, Swollen;
    var n := |l.realms| - 1;
    var rs, r := l.realms[..n], l.realms[n];
    assert l.realms == rs + [r];
    var body := Payload(l);
    TwoBytes(n + 1);
    assert body[4..6] == ToLE(n + 1, 2) && body[..4] == l.unused;
    assert body[6..] == RealmsBytes(l.realms) + TRAILER;
    ReadRealmsOfCut(rs, r);
    ReadRealmOfCut(r);
    RealmsBytesMore(rs, r);
    RealmsBytesMore(rs, Swollen(r));
  }

  lemma LocalSwells(r: Realm, world: seq<byte>)
    requires NearlyValid(r) && 0 !in world
    ensures NearlyValid(Local(r, world)) && HasBuild(Local(r, world)) == HasBuild(r)
    ensures Local(Swollen(Local(r, world)), world) == Swollen(Local(r, world))
    ensures ValidRealm(r) ==> ValidRealm(Local(r, world)) && Local(Local(r, world), world) == Local(r, world)
  {
    OnlineClearsOneBit(r.flags, 2);
    OnlineClearsOneBit(r.flags, 1);
  }

  // ---- the fallback -------------------------------------------------------------------------------------

  lemma AsciiNoZero(s: string)
    requires forall i | 0 <= i < |s| :: 0 < s[i] as int < 128
    ensures 0 !in Ascii(s)
  {}

  lemma MinimalValid(world: seq<byte>)
    requires 0 !in world && |world| < 256
    ensures ValidList(Minimal(world)) && Localized(Minimal(world), world) == Minimal(world)
    ensures 8 < |Payload(Minimal(world))| < 1000
  {
    hide Ascii;
    AsciiNoZero(REALM_NAME);
    AsciiNoZero(REALM_META);
    var m := Minimal(world);
    LowBits(0);
    assert Shr(0, 2) == Shr(0, 1) == Shr(0, 0) == 0;
    assert LocalRealms(m.realms, world) == m.realms;
    assert m.realms[1..] == [m.realms[1]] && m.realms[1..][1..] == [];
    assert |RealmsBytes(m.realms)| == |RealmBytes(m.realms[0])| + |RealmsBytes(m.realms[1..])|;
    assert |RealmsBytes(m.realms[1..])| == |RealmBytes(m.realms[1])|;
  }

  /** The rebuild fell back, or read a list with nothing missing. */
  predicate Sound(raw: seq<byte>, world: seq<byte>) {
    match ReadList(BodyOf(raw))
    case None => true
    case Some(l) => |Payload(Localized(l, world))| >= LIMIT || (|l.unused| == 4 && !CutBuild(l.realms))
  }

  lemma RebuiltOfPayload(l: List, world: seq<byte>)
    requires ValidList(l) && Localized(l, world) == l && |Payload(l)| < LIMIT
    ensures Rebuilt(Wrapped(Payload(l)), world) == Wrapped(Payload(l))
  {
    hide ReadList, Payload, Localized, ValidList;
    BodyOfWrapped(Payload(l));
    ReadListOfPayload(l);
  }

  lemma SoundIsStable(raw: seq<byte>, world: seq<byte>)
    requires 0 !in world && |world| < 256 && Sound(raw, world)
    ensures Rebuilt(Rebuilt(raw, world), world) == Rebuilt(raw, world)
  {
    hide ReadList, Payload, Localized, Minimal, CutBuild, ValidRealm, NearlyValid;
    MinimalValid(world);
    RebuiltOfPayload(Minimal(world), world);
    var l := ReadList(BodyOf(raw));
    if l.Some? && |Payload(Localized(l.value, world))| < LIMIT {
      ReadListShape(BodyOf(raw));
      LocalizedValid(l.value, world);
      RebuiltOfPayload(Localized(l.value, world), world);
    }
  }

  /** Two wraps of different length, or a long one against the fallback, differ. */
  lemma SecondDiffers(first: seq<byte>, l: List, world: seq<byte>)
    requires 0 !in world && |world| < 256 && |first| < LIMIT
    requires ReadList(first) == Some(l) && |Payload(Localized(l, world))| > |first|
    requires |first| < 1000 ==> |Payload(Localized(l, world))| < LIMIT
    ensures Rebuilt(Wrapped(first), world) != Wrapped(first)
  {
    hide ReadList, Payload, Localized, Minimal;
    BodyOfWrapped(first);
    MinimalValid(world);
  }

  lemma CutDiffers(l: List, world: seq<byte>)
    requires 0 !in world && |world| < 256
    requires |l.unused| == 4 && |l.realms| < LIMIT && l.trailer == TRAILER && CutBuild(l.realms)
    requires forall i | 0 <= i < |l.realms| - 1 :: ValidRealm(l.realms[i])
    requires forall i | 0 <= i < |l.realms| :: NearlyValid(l.realms[i])
    requires |Payload(Localized(l, world))| < LIMIT
    ensures Rebuilt(Wrapped(Payload(Localized(l, world))), world) != Wrapped(Payload(Localized(l, world)))
  {
    hide ReadList, Payload, ValidRealm, NearlyValid, Local, HasBuild, Swollen;
    var k := Localized(l, world);
    var n := |l.realms| - 1;
    forall i | 0 <= i < |l.realms|
      ensures NearlyValid(k.realms[i]) && HasBuild(k.realms[i]) == HasBuild(l.realms[i])
      ensures Local(Swollen(k.realms[i]), world) == Swollen(k.realms[i])
      ensures ValidRealm(l.realms[i]) ==> ValidRealm(k.realms[i]) && Local(k.realms[i], world) == k.realms[i]
    {
      LocalSwells(l.realms[i], world);
    }
    LocalBuild(l.realms[n], world);
    CutSwells(k);
    var m := ReadList(Payload(k)).value;
    assert Localized(m, world) == m by {
      assert LocalRealms(m.realms, world) == m.realms;
    }
    SecondDiffers(Payload(k), m, world);
  }

  lemma LocalBuild(r: Realm, world: seq<byte>)
    ensures Local(r, world).build == r.build
  {}

  /** A capture of less than four bytes is not read back as what was printed for it. */
  lemma ShortDiffers(l: List, world: seq<byte>)
    requires 0 !in world && |world| < 256
    requires |l.unused| < 4 && l.realms == [] && l.trailer == TRAILER
    ensures Rebuilt(Wrapped(Payload(Localized(l, world))), world) != Wrapped(Payload(Localized(l, world)))
  {
    hide Minimal;
    var k := Localized(l, world);
    assert k == l;
    var p := Payload(k);
    assert ToLE(0, 2) == [0, 0] by {
      assert ToLE(0, 1) == [0];
    }
    assert p == l.unused + [0, 0] + TRAILER;
    BodyOfWrapped(p);
    MinimalValid(world);
    ShortRead(l.unused, p);
    var m := ReadList(p);
    if m.Some? {
      EmptyPayload(m.value);
      EmptyPayload(Localized(m.value, world));
      assert LocalRealms([], world) == [];
    }
  }

  lemma EmptyPayload(l: List)
    requires l.realms == []
    ensures |Payload(l)| == |l.unused| + 2 + |l.trailer|
  {}

  lemma ShortRead(u: seq<byte>, p: seq<byte>)
    requires |u| < 4 && p == u + [0, 0] + TRAILER
    ensures var m := ReadList(p);
            m.Some? ==> m.value.realms == [] && |m.value.unused| == 4 && |m.value.trailer| == 2
  {
    var c := Slice(p, 4, 6);
    if |u| == 0 {
      assert c == [];
    } else if |u| == 1 {
      assert c == [0];
      assert c[1..] == [];
    } else if |u| == 2 {
      assert c == [0x10, 0];
      assert c[1..] == [0];
      assert FromLE(c) == 0x10;
    } else {
      assert p[4] == 0 && p[5] == 0x10;
      assert c == [0, 0x10];
      assert c[1..] == [0x10] && [0x10 as byte][1..] == [];
      assert FromLE(c) == 0x1000;
    }
    if FromLE(c) > 0 {
      assert ReadRealm(Drop(p, 6)).None?;
    }
  }

  /** A second rebuild changes nothing exactly when the first fell back or read a list with nothing missing: the
      other captures end before their header or inside the last realm's version bytes. */
  lemma RebuiltTwiceExactly(raw: seq<byte>, world: seq<byte>)
    requires 0 !in world && |world| < 256
    ensures Rebuilt(Rebuilt(raw, world), world) == Rebuilt(raw, world) <==> Sound(raw, world)
  {
    hide ReadList, Payload, Localized, Minimal, CutBuild, ValidRealm, NearlyValid;
    if Sound(raw, world) {
      SoundIsStable(raw, world);
    } else {
      var l := ReadList(BodyOf(raw)).value;
      ReadListShape(BodyOf(raw));
      if |l.unused| < 4 {
        ShortDiffers(l, world);
      } else {
        CutDiffers(l, world);
      }
    }
  }

  // ---- the cursor loop ----------------------------------------------------------------------------------

  function ReadOn(done: seq<Realm>, s: seq<byte>, n: nat): Option<(seq<Realm>, seq<byte>)> {
    var l := ReadRealms(s, n);
    if l.None? then None else Some((done + l.value.0, l.value.1))
  }

  lemma ReadOnStep(done: seq<Realm>, s: seq<byte>, n: nat)
    requires n > 0
    ensures ReadOn(done, s, n) == match ReadRealm(s)
                                  case None => None
                                  case Some((r, used)) => ReadOn(done + [r], Drop(s, used), n - 1)
  {
    hide ReadRealm, Drop;
    match ReadRealm(s)
    case None =>
    case Some((r, used)) =>
      var l := ReadRealms(Drop(s, used), n - 1);
      if l.Some? {
        assert done + ([r] + l.value.0) == done + [r] + l.value.0;
      }
  }

  lemma ReadOnEnds(done: seq<Realm>, s: seq<byte>, n: nat)
    ensures ReadOn(done, s, 0) == Some((done, s))
    ensures ReadOn([], s, n) == ReadRealms(s, n)
  {
    hide ReadRealm;
    assert done + [] == done;
    var l := ReadRealms(s, n);
    if l.Some? {
      assert [] + l.value.0 == l.value.0;
    }
  }

  lemma DropDrop(s: seq<byte>, p: nat, used: nat)
    ensures Drop(Drop(s, p), used) == Drop(s, p + used)
  {}

  lemma LocalMore(done: seq<Realm>, r: Realm, world: seq<byte>)
    ensures RealmsBytes(LocalRealms(done + [r], world))
         == RealmsBytes(LocalRealms(done, world)) + RealmBytes(Local(r, world))
  {
    hide RealmsBytes, RealmBytes, Local;
    RealmsBytesMore(LocalRealms(done, world), Local(r, world));
    assert LocalRealms(done + [r], world) == LocalRealms(done, world) + [Local(r, world)];
  }

  /** `_rebuild_local_realmlist`, realm by realm. */
  method RebuildLocalRealmList(raw: seq<byte>, world: seq<byte>) returns (out: seq<byte>)
    ensures out == Rebuilt(raw, world)
  {
    hide ReadRealm, ReadRealms, ReadOn, RealmBytes, RealmsBytes, Minimal, ToLE, FromLE;
    var body := BodyOf(raw);
    var n := FromLE(Slice(body, 4, 6));
    var list := Slice(body, 0, 4) + ToLE(n, 2);
    var p := 6;
    ghost var start, done: seq<Realm> := Drop(body, 6), [];
    ReadOnEnds([], start, n);
    NoRealms(world);
    assert list + [] == list;
    for i := 0 to n
      invariant |done| == i
      invariant ReadRealms(start, n) == ReadOn(done, Drop(body, p), n - i)
      invariant list == Slice(body, 0, 4) + ToLE(n, 2) + RealmsBytes(LocalRealms(done, world))
    {
      var read := ReadRealm(Drop(body, p));
      ReadOnStep(done, Drop(body, p), n - i);
      if read.None? {
        return Wrapped(Payload(Minimal(world)));
      }
      var (r, used) := read.value;
      DropDrop(body, p, used);
      LocalMore(done, r, world);
      done := done + [r];
      var addr := if r.addr != [] then world else [];
      list := list + RealmBytes(r.(lock := 0, flags := Online(r.flags), addr := addr));
      p := p + used;
    }
    ReadOnEnds(done, Drop(body, p), 0);
    var rest := Drop(body, p);
    list := list + if |rest| >= 2 then rest[..2] else TRAILER;
    if |list| >= LIMIT {
      return Wrapped(Payload(Minimal(world)));
    }
    out := [LIST_OPCODE] + ToLE(|list|, 2) + list;
  }

  lemma NoRealms(world: seq<byte>)
    ensures RealmsBytes(LocalRealms([], world)) == []
  {}
}
