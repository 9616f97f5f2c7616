/** The character list: printed by the world server, and projected back to custom classes by the bridge. */
module CharEnum {
  import opened Bytes
  import opened Dbc

  const REST: nat := 261

  /** One record: the guid's eight bytes, the name, and the fixed part, whose second byte is the class. */
  datatype Rec = Rec(guid: seq<byte>, name: seq<byte>, rest: seq<byte>)

  predicate ValidRec(r: Rec) {
    |r.guid| == 8 && 0 !in r.name && |r.rest| == REST
  }

  function RecBytes(r: Rec): (s: seq<byte>)
    ensures |s| == |r.guid| + |r.name| + 1 + |r.rest|
  {
    r.guid + r.name + [0] + r.rest
  }

  function RecsBytes(recs: seq<Rec>): seq<byte>
    decreases |recs|
  {
    if recs == [] then [] else RecBytes(recs[0]) + RecsBytes(recs[1..])
  }

  /** A list of up to 255 records. */
  function Printed(recs: seq<Rec>): seq<byte>
    requires |recs| < 256
  {
    [|recs|] + RecsBytes(recs)
  }

  // ---- reading ------------------------------------------------------------------------------------

  function ReadRec(s: seq<byte>): (r: Option<Rec>)
    ensures r.Some? ==> ValidRec(r.value) && |RecBytes(r.value)| <= |s| && s[..|RecBytes(r.value)|] == RecBytes(r.value)
  {
    if |s| < 8 then None
    else
      var z := FirstZero(s, 8);
      if z.None? || z.value + 1 + REST > |s| then None
      else
        var r := Rec(s[..8], s[8..z.value], s[z.value + 1..z.value + 1 + REST]);
        assert s[..z.value + 1 + REST] == RecBytes(r);
        Some(r)
  }

  /** Exactly n records and nothing after them. */
  function ReadRecs(s: seq<byte>, n: nat): (recs: Option<seq<Rec>>)
    ensures recs.Some? ==> |recs.value| == n && forall i | 0 <= i < n :: ValidRec(recs.value[i])
    decreases n
  {
    if n == 0 then if s == [] then Some([]) else None
    else
      var r := ReadRec(s);
      if r.None? then None
      else
        var rest := ReadRecs(s[|RecBytes(r.value)|..], n - 1);
        if rest.None? then None else Some([r.value] + rest.value)
  }

  function Parsed(body: seq<byte>): (recs: Option<seq<Rec>>)
    ensures recs.Some? ==> body != [] && |recs.value| == body[0]
    ensures recs.Some? ==> forall i | 0 <= i < |recs.value| :: ValidRec(recs.value[i])
  {
    if body == [] then None else ReadRecs(body[1..], body[0])
  }

  lemma ReadRecOfBytes(r: Rec, more: seq<byte>)
    requires ValidRec(r)
    ensures ReadRec(RecBytes(r) + more) == Some(r)
  {
    var s := RecBytes(r) + more;
    var z := 8 + |r.name|;
    assert s[z] == 0 && forall i | 8 <= i < z :: s[i] != 0 by {
      forall i | 8 <= i < z ensures s[i] != 0 {
        assert s[i] == r.name[i - 8];
      }
    }
    FirstZeroIs(s, 8, z);
    assert s[..8] == r.guid && s[8..z] == r.name && s[z + 1..z + 1 + REST] == r.rest;
  }

  lemma {:induction false} ReadRecsOfBytes(recs: seq<Rec>)
    requires forall i | 0 <= i < |recs| :: ValidRec(recs[i])
    ensures ReadRecs(RecsBytes(recs), |recs|) == Some(recs)
    decreases |recs|
  {
    hide ReadRec;
    if recs != [] {
      ReadRecOfBytes(recs[0], RecsBytes(recs[1..]));
      var s := RecsBytes(recs);
      assert s[|RecBytes(recs[0])|..] == RecsBytes(recs[1..]);
      ReadRecsOfBytes(recs[1..]);
      assert recs == [recs[0]] + recs[1..];
    }
  }

  lemma {:induction false} BytesOfReadRecs(s: seq<byte>, n: nat)
    requires ReadRecs(s, n).Some?
    ensures RecsBytes(ReadRecs(s, n).value) == s
    decreases n
  {
    hide ReadRec;
    if n > 0 {
      var r := ReadRec(s).value;
      var k := |RecBytes(r)|;
      BytesOfReadRecs(s[k..], n - 1);
      var recs := ReadRecs(s, n).value;
      assert recs[1..] == ReadRecs(s[k..], n - 1).value;
      assert s == s[..k] + s[k..];
    }
  }

  /** Reading and printing are inverse, in both directions. */
  lemma ParseRoundTrip(body: seq<byte>, recs: seq<Rec>)
    ensures Parsed(body).Some? ==> |Parsed(body).value| < 256 && Printed(Parsed(body).value) == body
    ensures |recs| < 256 && (forall i | 0 <= i < |recs| :: ValidRec(recs[i])) ==> Parsed(Printed(recs)) == Some(recs)
  {
    hide ReadRecs, RecsBytes;
    if Parsed(body).Some? {
      BytesOfReadRecs(body[1..], body[0]);
      assert body == [body[0]] + body[1..];
    }
    if |recs| < 256 && forall i | 0 <= i < |recs| :: ValidRec(recs[i]) {
      ReadRecsOfBytes(recs);
      assert Printed(recs)[1..] == RecsBytes(recs);
    }
  }

  // ---- the rewrite --------------------------------------------------------------------------------

  /** What the class table says of a name. */
  type Lookup = seq<byte> -> Option<int>

  function ClassOf(r: Rec): byte
    requires ValidRec(r)
  {
    r.rest[1]
  }

  predicate Differs(r: Rec, f: Lookup)
    requires ValidRec(r)
  {
    f(r.name).Some? && f(r.name).value != ClassOf(r)
  }

  /** A stored class that is no byte makes the whole rewrite fail. */
  predicate Storable(r: Rec, f: Lookup)
    requires ValidRec(r)
  {
    Differs(r, f) ==> 0 <= f(r.name).value < 256
  }

  function Projected(r: Rec, f: Lookup): (p: Rec)
    requires ValidRec(r) && Storable(r, f)
    ensures ValidRec(p) && p.guid == r.guid && p.name == r.name
  {
    if Differs(r, f) then r.(rest := [r.rest[0], f(r.name).value] + r.rest[2..]) else r
  }

  function ProjectedAll(recs: seq<Rec>, f: Lookup): (out: seq<Rec>)
    requires forall i | 0 <= i < |recs| :: ValidRec(recs[i]) && Storable(recs[i], f)
    ensures |out| == |recs| && forall i | 0 <= i < |recs| :: ValidRec(out[i])
  {
    seq(|recs|, i requires 0 <= i < |recs| => Projected(recs[i], f))
  }

  /** The records, when the packet parses and every looked-up class fits its byte. */
  function Readable(body: seq<byte>, f: Lookup): (recs: Option<seq<Rec>>)
    ensures recs.Some? ==> |recs.value| < 256
    ensures recs.Some? ==> forall i | 0 <= i < |recs.value| :: ValidRec(recs.value[i]) && Storable(recs.value[i], f)
  {
    var recs := Parsed(body);
    if recs.Some? && forall i | 0 <= i < |recs.value| :: Storable(recs.value[i], f) then recs else None
  }

  /** `rewrite_char_enum`, the body. */
  function Rewritten(body: seq<byte>, f: Lookup): seq<byte> {
    var recs := Readable(body, f);
    if recs.Some? then Printed(ProjectedAll(recs.value, f)) else body
  }

  lemma ProjectedLength(recs: seq<Rec>, out: seq<Rec>)
    requires |out| == |recs|
    requires forall i | 0 <= i < |recs| :: |RecBytes(out[i])| == |RecBytes(recs[i])|
    ensures |RecsBytes(out)| == |RecsBytes(recs)|
    decreases |recs|
  {
    hide RecBytes;
    if recs != [] {
      ProjectedLength(recs[1..], out[1..]);
    }
  }

  /** Where record i's class byte stands in the packet. */
  function ClassAt(recs: seq<Rec>, i: nat): nat
    requires i < |recs|
    decreases i
  {
    if i == 0 then 1 + |recs[0].guid| + |recs[0].name| + 2
    else |RecBytes(recs[0])| + ClassAt(recs[1..], i - 1)
  }

  // ---- laws ---------------------------------------------------------------------------------------

  /** The rewrite of a printed list is the print of the projected list; if some class does not fit its byte the
      list goes through as it is. */
  lemma RewriteOfPrinted(recs: seq<Rec>, f: Lookup)
    requires |recs| < 256 && forall i | 0 <= i < |recs| :: ValidRec(recs[i])
    ensures if forall i | 0 <= i < |recs| :: Storable(recs[i], f)
            then Rewritten(Printed(recs), f) == Printed(ProjectedAll(recs, f))
            else Rewritten(Printed(recs), f) == Printed(recs)
  {
    hide Parsed, Printed, Projected;
    ParseRoundTrip([], recs);
  }

  lemma {:induction false} ByteOfRecs(recs: seq<Rec>, f: Lookup, k: nat)
    requires forall i | 0 <= i < |recs| :: ValidRec(recs[i]) && Storable(recs[i], f)
    requires k < |RecsBytes(recs)|
    ensures |RecsBytes(ProjectedAll(recs, f))| == |RecsBytes(recs)|
    ensures RecsBytes(ProjectedAll(recs, f))[k] != RecsBytes(recs)[k] ==>
              exists i | 0 <= i < |recs| :: k + 1 == ClassAt(recs, i) && Differs(recs[i], f)
                && f(recs[i].name) == Some(RecsBytes(ProjectedAll(recs, f))[k] as int)
    decreases |recs|
  {
    hide Storable, Differs, RecBytes, ProjectedAll;
    var r, rest := recs[0], recs[1..];
    var out := ProjectedAll(recs, f);
    ProjectedTail(recs, f);
    ByteOfRec(r, f);
    var n := |RecBytes(r)|;
    if k < n {
      assert ClassAt(recs, 0) == 1 + |r.guid| + |r.name| + 2;
      assert RecsBytes(recs)[k] == RecBytes(r)[k] && RecsBytes(out)[k] == RecBytes(out[0])[k];
      LengthsSame(rest, f);
    } else {
      ByteOfRecs(rest, f, k - n);
      assert RecsBytes(recs)[k] == RecsBytes(rest)[k - n];
      assert RecsBytes(out)[k] == RecsBytes(out[1..])[k - n];
      if RecsBytes(out)[k] != RecsBytes(recs)[k] {
        var i :| 0 <= i < |rest| && k - n + 1 == ClassAt(rest, i) && Differs(rest[i], f)
          && f(rest[i].name) == Some(RecsBytes(out)[k] as int);
        assert ClassAt(recs, i + 1) == n + ClassAt(rest, i);
        assert recs[i + 1] == rest[i];
      }
    }
  }

  lemma ProjectedTail(recs: seq<Rec>, f: Lookup)
    requires recs != [] && forall i | 0 <= i < |recs| :: ValidRec(recs[i]) && Storable(recs[i], f)
    ensures ProjectedAll(recs, f)[0] == Projected(recs[0], f)
    ensures ProjectedAll(recs, f)[1..] == ProjectedAll(recs[1..], f)
  {
    hide Storable, Projected;
  }

  lemma LengthsSame(recs: seq<Rec>, f: Lookup)
    requires forall i | 0 <= i < |recs| :: ValidRec(recs[i]) && Storable(recs[i], f)
    ensures |RecsBytes(ProjectedAll(recs, f))| == |RecsBytes(recs)|
  {
    hide RecsBytes;
    ProjectedLength(recs, ProjectedAll(recs, f));
  }

  lemma ByteOfRec(r: Rec, f: Lookup)
    requires ValidRec(r) && Storable(r, f)
    ensures |RecBytes(Projected(r, f))| == |RecBytes(r)|
    ensures forall k | 0 <= k < |RecBytes(r)| && RecBytes(Projected(r, f))[k] != RecBytes(r)[k] ::
              k == |r.guid| + |r.name| + 2 && Differs(r, f) && f(r.name) == Some(RecBytes(Projected(r, f))[k] as int)
  {}

  /** On any packet the length stays, and a byte that changes is the class byte of a record the table has another
      class for, and becomes that class. */
  lemma OnlyClassesChange(body: seq<byte>, f: Lookup, k: nat)
    requires k < |body|
    ensures |Rewritten(body, f)| == |body|
    ensures Rewritten(body, f)[k] != body[k] ==>
              Readable(body, f).Some? && exists i | 0 <= i < |Readable(body, f).value| ::
                var recs := Readable(body, f).value;
                k == ClassAt(recs, i) && Differs(recs[i], f) && f(recs[i].name) == Some(Rewritten(body, f)[k] as int)
  {
    hide Parsed, RecsBytes, ProjectedAll, Storable, Differs, ClassAt;
    var recs := Readable(body, f);
    if recs.Some? {
      ParseRoundTrip(body, []);
      LengthsSame(recs.value, f);
      if k > 0 {
        ByteOfRecs(recs.value, f, k - 1);
      }
    }
  }

  lemma ProjectedTwice(r: Rec, f: Lookup)
    requires ValidRec(r) && Storable(r, f)
    ensures !Differs(Projected(r, f), f) && Storable(Projected(r, f), f)
    ensures Projected(Projected(r, f), f) == Projected(r, f)
  {}

  /** Rewriting again changes nothing. */
  lemma RewriteTwice(body: seq<byte>, f: Lookup)
    ensures Rewritten(Rewritten(body, f), f) == Rewritten(body, f)
  {
    hide Parsed, Printed, Projected, Storable;
    var recs := Readable(body, f);
    if recs.Some? {
      var out := ProjectedAll(recs.value, f);
      forall i | 0 <= i < |out| ensures Storable(out[i], f) && Projected(out[i], f) == out[i] {
        ProjectedTwice(recs.value[i], f);
      }
      RewriteOfPrinted(out, f);
      assert ProjectedAll(out, f) == out;
    }
  }

  // ---- the world server's list ----------------------------------------------------------------------

  /** A stored character; the position is kept as its twelve wire bytes. */
  datatype Character = Character(guid: nat, name: seq<byte>, race: byte, charClass: byte, gender: byte,
                                 looks: seq<byte>,
                                 level: byte, zone: nat, mapId: nat, position: seq<byte>)

  predicate ValidChar(c: Character) {
    && c.guid < Pow256(8) && 0 !in c.name && |c.looks| == 5 && c.zone < WORD && c.mapId < WORD && |c.position| == 12
  }

  function Zeros(n: nat): (s: seq<byte>)
    ensures |s| == n
  {
    seq(n, i => 0)
  }

  /** One record of `smsg_char_enum`: guild, flags, pet and the 23 equipment slots are all zero. */
  function RecOf(c: Character): (r: Rec)
    requires ValidChar(c)
    ensures ValidRec(r) && r.name == c.name && ClassOf(r) == c.charClass
  {
    Rec(ToLE(c.guid, 8), c.name,
        [c.race, c.charClass, c.gender] + c.looks + [c.level] + ToLE(c.zone, 4) + ToLE(c.mapId, 4)
        + c.position + Zeros(232))
  }

  function CharList(chars: seq<Character>): seq<byte>
    requires |chars| < 256 && forall i | 0 <= i < |chars| :: ValidChar(chars[i])
  {
    Printed(seq(|chars|, i requires 0 <= i < |chars| => RecOf(chars[i])))
  }

  /** A character with the class the table has for its name. */
  function Reclassed(c: Character, f: Lookup): (d: Character)
    requires ValidChar(c) && (f(c.name).Some? ==> 0 <= f(c.name).value < 256)
    ensures ValidChar(d)
  {
    if f(c.name).Some? then c.(charClass := f(c.name).value) else c
  }

  lemma ProjectedRec(c: Character, f: Lookup)
    requires ValidChar(c) && (f(c.name).Some? ==> 0 <= f(c.name).value < 256)
    ensures Storable(RecOf(c), f) && Projected(RecOf(c), f) == RecOf(Reclassed(c, f))
  {
    hide ToLE;
    var r := RecOf(c);
    if Differs(r, f) {
      var d := RecOf(Reclassed(c, f));
      assert d.rest[2..] == r.rest[2..];
      assert Projected(r, f).rest == d.rest;
    }
  }

  /** The bridge's rewrite of the world server's list is the list of the same characters with their own classes. */
  lemma RewriteOfCharList(chars: seq<Character>, f: Lookup)
    requires |chars| < 256 && forall i | 0 <= i < |chars| :: ValidChar(chars[i])
    requires forall i | 0 <= i < |chars| :: f(chars[i].name).Some? ==> 0 <= f(chars[i].name).value < 256
    ensures Rewritten(CharList(chars), f)
         == CharList(seq(|chars|, i requires 0 <= i < |chars| => Reclassed(chars[i], f)))
  {
    hide Parsed, Printed, Projected, Storable, RecOf, Reclassed, Rewritten;
    var recs := seq(|chars|, i requires 0 <= i < |chars| => RecOf(chars[i]));
    var mapped := seq(|chars|, i requires 0 <= i < |chars| => Reclassed(chars[i], f));
    forall i | 0 <= i < |chars| ensures Storable(recs[i], f) && Projected(recs[i], f) == RecOf(mapped[i]) {
      ProjectedRec(chars[i], f);
    }
    RewriteOfPrinted(recs, f);
    assert ProjectedAll(recs, f) == seq(|chars|, i requires 0 <= i < |chars| => RecOf(mapped[i]));
  }

  // ---- the walk -----------------------------------------------------------------------------------

  datatype Change = Change(name: seq<byte>, was: byte, now: int)

  function Changes(recs: seq<Rec>, f: Lookup): seq<Change>
    requires forall i | 0 <= i < |recs| :: ValidRec(recs[i])
    decreases |recs|
  {
    if recs == [] then []
    else
      var n := |recs| - 1;
      var r := recs[n];
      Changes(recs[..n], f) + if Differs(r, f) then [Change(r.name, ClassOf(r), f(r.name).value)] else []
  }

  /** Names by guid, a later record overriding an earlier one. */
  function Roster(recs: seq<Rec>): map<nat, seq<byte>>
    decreases |recs|
  {
    if recs == [] then map[] else Roster(recs[..|recs| - 1])[FromLE(recs[|recs| - 1].guid) := recs[|recs| - 1].name]
  }

  /** Race and gender by guid, as the packet had them. */
  function Looks(recs: seq<Rec>): map<nat, (byte, byte)>
    requires forall i | 0 <= i < |recs| :: ValidRec(recs[i])
    decreases |recs|
  {
    if recs == [] then map[]
    else
      var n := |recs| - 1;
      var r := recs[n];
      assert ValidRec(r);
      Looks(recs[..n])[FromLE(r.guid) := (r.rest[0], r.rest[2])]
  }

  function ReadOn(done: seq<Rec>, s: seq<byte>, n: nat): Option<seq<Rec>> {
    var rest := ReadRecs(s, n);
    if rest.None? then None else Some(done + rest.value)
  }

  lemma ReadOnStep(done: seq<Rec>, s: seq<byte>, n: nat)
    requires n > 0
    ensures ReadOn(done, s, n) == (match ReadRec(s)
                                   case None => None
                                   case Some(r) => ReadOn(done + [r], s[|RecBytes(r)|..], n - 1))
  {
    hide ReadRec;
    var r := ReadRec(s);
    if r.Some? {
      var rest := ReadRecs(s[|RecBytes(r.value)|..], n - 1);
      if rest.Some? {
        assert done + ([r.value] + rest.value) == done + [r.value] + rest.value;
      }
    }
  }

  lemma {:induction false} RecsBytesMore(recs: seq<Rec>, r: Rec)
    ensures RecsBytes(recs + [r]) == RecsBytes(recs) + RecBytes(r)
    decreases |recs|
  {
    hide RecBytes;
    if recs == [] {
      assert [r][1..] == [];
      assert RecsBytes([r]) == RecBytes(r) + [];
    } else {
      RecsBytesMore(recs[1..], r);
      assert (recs + [r])[1..] == recs[1..] + [r];
      assert RecBytes(recs[0]) + (RecsBytes(recs[1..]) + RecBytes(r))
          == RecBytes(recs[0]) + RecsBytes(recs[1..]) + RecBytes(r);
    }
  }

  lemma ProjectedMore(recs: seq<Rec>, f: Lookup, r: Rec)
    requires forall i | 0 <= i < |recs| :: ValidRec(recs[i]) && Storable(recs[i], f)
    requires ValidRec(r) && Storable(r, f)
    ensures RecsBytes(ProjectedAll(recs + [r], f)) == RecsBytes(ProjectedAll(recs, f)) + RecBytes(Projected(r, f))
  {
    hide RecsBytes, RecBytes, Projected;
    RecsBytesMore(ProjectedAll(recs, f), Projected(r, f));
    assert ProjectedAll(recs + [r], f) == ProjectedAll(recs, f) + [Projected(r, f)];
  }

  ghost predicate AllStorable(recs: seq<Rec>, f: Lookup) {
    forall i | 0 <= i < |recs| :: ValidRec(recs[i]) && Storable(recs[i], f)
  }

  lemma ReadOnHolds(done: seq<Rec>, s: seq<byte>, n: nat, r: Rec, f: Lookup)
    requires n > 0 && ReadRec(s) == Some(r) && !Storable(r, f)
    ensures ReadOn(done, s, n).Some? ==> !AllStorable(ReadOn(done, s, n).value, f)
  {
    hide ReadRec, Storable;
    ReadOnStep(done, s, n);
    if ReadOn(done, s, n).Some? {
      var all := ReadOn(done, s, n).value;
      assert all[|done|] == r;
    }
  }

  /** `rewrite_char_enum`, record by record; `changed` is None where the packet went through unread. */
  method RewriteCharEnum(body: seq<byte>, f: Lookup)
    returns (out: seq<byte>, changed: Option<seq<Change>>, roster: map<nat, seq<byte>>, looks: map<nat, (byte, byte)>)
    ensures out == Rewritten(body, f)
    ensures match Readable(body, f)
            case Some(recs) => changed == Some(Changes(recs, f)) && roster == Roster(recs) && looks == Looks(recs)
            case None => changed == (if body == [] then Some([]) else None) && roster == map[] && looks == map[]
  {
    hide ReadRec, RecBytes, RecsBytes, Storable, Projected, ProjectedAll, ReadOn, FromLE, Changes, Roster, Looks;
    NothingDone(f);
    if body == [] {
      return body, Some([]), map[], map[];
    }
    var count := body[0];
    var off := 1;
    var changes: seq<Change> := [];
    out, roster, looks := [count], map[], map[];
    ghost var done: seq<Rec> := [];
    WalkStart(body, f);
    for i := 0 to count
      invariant 1 <= off <= |body| && |done| == i && AllStorable(done, f)
      invariant ReadRecs(body[1..], count) == ReadOn(done, body[off..], count - i)
      invariant out == [count] + RecsBytes(ProjectedAll(done, f))
      invariant changes == Changes(done, f) && roster == Roster(done) && looks == Looks(done)
    {
      var read := ReadRec(body[off..]);
      ReadOnStep(done, body[off..], count - i);
      if read.None? {
        return body, None, map[], map[];
      }
      var r := read.value;
      var want, was := f(r.name), ClassOf(r);
      if want.Some? && was != want.value && !(0 <= want.value < 256) {
        NotStorable(r, f);
        ReadOnHolds(done, body[off..], count - i, r, f);
        return body, None, map[], map[];
      }
      IsStorable(r, f);
      ProjectedMore(done, f, r);
      out := out + RecordOut(r, f);
      if want.Some? && was != want.value {
        changes := changes + [Change(r.name, was, want.value)];
      }
      var guid := FromLE(r.guid);
      roster := roster[guid := r.name];
      looks := looks[guid := (r.rest[0], r.rest[2])];
      DoneMore(done, r, f);
      done := done + [r];
      assert body[off..][|RecBytes(r)|..] == body[off + |RecBytes(r)|..];
      off := off + |RecBytes(r)|;
    }
    WalkEnd(done, body[off..]);
    if off != |body| {
      return body, None, map[], map[];
    }
    changed := Some(changes);
  }

  /** The record with its class byte overwritten where the table says so. */
  function RecordOut(r: Rec, f: Lookup): (s: seq<byte>)
    requires ValidRec(r) && Storable(r, f)
    ensures s == RecBytes(Projected(r, f))
  {
    var rec, at := RecBytes(r), 8 + |r.name| + 2;
    if Differs(r, f) then
      var s := rec[..at] + [f(r.name).value] + rec[at + 1..];
      assert s == RecBytes(Projected(r, f));
      s
    else rec
  }

  lemma WalkStart(body: seq<byte>, f: Lookup)
    requires body != []
    ensures ReadRecs(body[1..], body[0]) == ReadOn([], body[1..], body[0])
    ensures RecsBytes(ProjectedAll([], f)) == []
  {
    hide ReadRecs;
    var rest := ReadRecs(body[1..], body[0]);
    if rest.Some? {
      assert [] + rest.value == rest.value;
    }
  }

  lemma WalkEnd(done: seq<Rec>, s: seq<byte>)
    ensures ReadOn(done, s, 0) == if s == [] then Some(done) else None
  {
    assert done + [] == done;
  }

  lemma NotStorable(r: Rec, f: Lookup)
    requires ValidRec(r) && f(r.name).Some? && ClassOf(r) != f(r.name).value && !(0 <= f(r.name).value < 256)
    ensures !Storable(r, f)
  {}

  lemma IsStorable(r: Rec, f: Lookup)
    requires ValidRec(r)
    requires !(f(r.name).Some? && ClassOf(r) != f(r.name).value && !(0 <= f(r.name).value < 256))
    ensures Storable(r, f)
  {}

  lemma DoneMore(done: seq<Rec>, r: Rec, f: Lookup)
    requires ValidRec(r) && forall i | 0 <= i < |done| :: ValidRec(done[i])
    ensures Changes(done + [r], f)
         == Changes(done, f) + if Differs(r, f) then [Change(r.name, ClassOf(r), f(r.name).value)] else []
    ensures Roster(done + [r]) == Roster(done)[FromLE(r.guid) := r.name]
    ensures Looks(done + [r]) == Looks(done)[FromLE(r.guid) := (r.rest[0], r.rest[2])]
  {
    hide FromLE;
    assert (done + [r])[..|done|] == done && (done + [r])[|done|] == r;
  }

  lemma NothingDone(f: Lookup)
    ensures Changes([], f) == [] && Roster([]) == map[] && Looks([]) == map[]
  {}
}
