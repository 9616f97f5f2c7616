/** The packets that pay for one world entry, as a function of what the threads sending them read: the mode, the
    character's stored class, its harvested look, the essence table and the stored entries. */
module Bootstrap {
  import opened Bytes
  import opened Framing
  import PackedGuid
  import UpdateMask

  const SMSG_UPDATE_OBJECT: nat := 0x0A9
  const SMSG_CA_ESSENCE_BUDGET: nat := 0x722
  const SMSG_CA_ACTIVE_SPEC: nat := 0x725
  const SMSG_CA_KNOWN_ENTRIES: nat := 0x726
  const UPDATETYPE_VALUES: byte := 0
  const UNIT_FIELD_BYTES_0: nat := 23
  const PLAYER_END: nat := 1326

  /** As many entries as the largest body a client may upload can hold. */
  const MAX_UPLOAD: nat := (0x10000 - 4) / 21

  type Word32 = x: nat | x < Pow256(4) witness 0

  /** A row of the essence table: columns 0, 1, 2, 7 and 8. */
  datatype EssenceRow = EssenceRow(id: Word32, level: Word32, family: Word32, ability: Word32, talent: Word32)

  datatype Entry = Entry(id: nat, rank: nat, unk0C: nat, flag: nat, unk18: nat, unk1C: nat)

  /** `look` is the harvested (race, gender), `power` the carrier class's, `names` the classes with a name. */
  datatype Seen = Seen(active: nat, slots: nat, coa: bool, clas: Option<nat>, names: set<nat>, writesClass: bool,
                       guid: Option<nat>, look: Option<(byte, byte)>, power: byte, essence: seq<EssenceRow>,
                       known: seq<Entry>)

  /** A class whose state is served at all. */
  predicate Served(v: Seen) {
    v.coa && v.clas.Some? && v.clas.value in v.names
  }

  // ---- the bodies -------------------------------------------------------------------------

  function ActiveSpec(active: nat, slots: nat): (p: Packet)
    ensures FitsS2C(p)
  {
    Packet(SMSG_CA_ACTIVE_SPEC, ToLE(active, 4) + ToLE(slots, 4))
  }

  /** race, class, gender, power, the lowest byte first. */
  function Bytes0(race: byte, clas: nat, gender: byte, power: byte): nat {
    race + 0x100 * (clas % 0x100) + 0x10000 * gender + 0x1000000 * power
  }

  function ClassFields(race: byte, clas: nat, gender: byte, power: byte): (f: UpdateMask.Fields)
    ensures UpdateMask.FourByte(f)
  {
    map[UNIT_FIELD_BYTES_0 := ToLE(Bytes0(race, clas, gender, power), 4)]
  }

  function MaskWords(): (n: nat)
    ensures n == 42
  {
    UpdateMask.WordCount(UNIT_FIELD_BYTES_0, PLAYER_END)
  }

  /** One values block in an object update. */
  function ClassUpdate(guid: nat, f: UpdateMask.Fields): Packet
    requires UpdateMask.FourByte(f)
  {
    Packet(SMSG_UPDATE_OBJECT,
           ToLE(1, 4) + [UPDATETYPE_VALUES] + PackedGuid.Packed(guid) + UpdateMask.Printed(f, MaskWords()))
  }

  function Budget(r: EssenceRow): (p: Packet)
    ensures FitsS2C(p)
  {
    var flags: seq<byte> := seq(16, _ => 0);
    Packet(SMSG_CA_ESSENCE_BUDGET, ToLE(r.id, 4) + ToLE(r.level, 4) + ToLE(r.family, 4) + flags
                                   + ToLE(r.ability, 4) + ToLE(r.talent, 4))
  }

  function EntryBytes(e: Entry): (s: seq<byte>)
    ensures |s| == 21
  {
    ToLE(e.id, 4) + ToLE(e.rank, 4) + ToLE(e.unk0C, 4) + [e.flag % 0x100] + ToLE(e.unk18, 4) + ToLE(e.unk1C, 4)
  }

  function EntriesBytes(es: seq<Entry>): (s: seq<byte>)
    ensures |s| == 21 * |es|
    decreases |es|
  {
    if es == [] then [] else EntriesBytes(es[..|es| - 1]) + EntryBytes(es[|es| - 1])
  }

  function Known(es: seq<Entry>): Packet {
    Packet(SMSG_CA_KNOWN_ENTRIES, ToLE(|es|, 4) + EntriesBytes(es))
  }

  // ---- the script -------------------------------------------------------------------------

  function RowsFor(rows: seq<EssenceRow>, family: nat): seq<EssenceRow> {
    if rows == [] then []
    else (if rows[0].family == family then [rows[0]] else []) + RowsFor(rows[1..], family)
  }

  function Budgets(rows: seq<EssenceRow>): (ps: seq<Packet>)
    ensures |ps| == |rows|
  {
    seq(|rows|, i requires 0 <= i < |rows| => Budget(rows[i]))
  }

  /** `send_class_byte`: nothing unless it is switched on and the character's look was harvested. */
  function ClassByte(v: Seen, clas: nat): (ps: seq<Packet>)
    ensures |ps| <= 1
  {
    if !v.writesClass || v.guid.None? || v.look.None? then []
    else [ClassUpdate(v.guid.value, ClassFields(v.look.value.0, clas, v.look.value.1, v.power))]
  }

  /** `send_ca_bootstrap` and `send_coa_state`, when every send succeeds. */
  function Script(v: Seen): seq<Packet> {
    [ActiveSpec(v.active, v.slots)] +
    if !Served(v) then []
    else ClassByte(v, v.clas.value) + Budgets(RowsFor(v.essence, v.clas.value)) + [Known(v.known)]
  }

  /** 0x725 alone, or followed by the class update if the look is known, the essence rows and 0x726. */
  predicate IsBootstrap(ps: seq<Packet>) {
    && ps != [] && ps[0].opcode == SMSG_CA_ACTIVE_SPEC
    && (|ps| > 1 ==>
          var rows := if ps[1].opcode == SMSG_UPDATE_OBJECT then ps[2..] else ps[1..];
          && rows != [] && rows[|rows| - 1].opcode == SMSG_CA_KNOWN_ENTRIES
          && forall i :: 0 <= i < |rows| - 1 ==> rows[i].opcode == SMSG_CA_ESSENCE_BUDGET)
  }

  /** The container first, then the class, its budget and the known set; more than the container exactly for a
      character with a class to serve. */
  lemma ScriptInOrder(v: Seen)
    ensures IsBootstrap(Script(v)) && (|Script(v)| > 1 <==> Served(v))
  {
    hide ActiveSpec, ClassByte, Budget, Known, RowsFor;
    Opcodes(v);
    if Served(v) {
      var c, b, k := ClassByte(v, v.clas.value), Budgets(RowsFor(v.essence, v.clas.value)), Known(v.known);
      forall i | 0 <= i < |b| ensures b[i].opcode == SMSG_CA_ESSENCE_BUDGET {
        BudgetOpcode(RowsFor(v.essence, v.clas.value)[i]);
      }
      assert Script(v)[1..] == c + b + [k];
      assert (c + b + [k])[|c|..] == b + [k];
      if c == [] && b != [] {
        assert Script(v)[1] == b[0];
      }
    }
  }

  lemma Opcodes(v: Seen)
    ensures ActiveSpec(v.active, v.slots).opcode == SMSG_CA_ACTIVE_SPEC
    ensures forall clas: nat, p :: p in ClassByte(v, clas) ==> p.opcode == SMSG_UPDATE_OBJECT
    ensures Known(v.known).opcode == SMSG_CA_KNOWN_ENTRIES
  {}

  lemma BudgetOpcode(r: EssenceRow)
    ensures Budget(r).opcode == SMSG_CA_ESSENCE_BUDGET
  {}

  lemma {:induction false} RowsForMembers(rows: seq<EssenceRow>, family: nat, r: EssenceRow)
    ensures r in RowsFor(rows, family) <==> r in rows && r.family == family
    decreases |rows|
  {
    if rows != [] {
      RowsForMembers(rows[1..], family, r);
      assert rows == [rows[0]] + rows[1..];
    }
  }

  /** A budget packet a client reads as this family's. */
  predicate OfFamily(p: Packet, family: nat) {
    |p.body| == 36 && FromLE(p.body[8..12]) == family
  }

  lemma BudgetFamily(r: EssenceRow)
    ensures OfFamily(Budget(r), r.family)
  {
    hide ToLE, FromLE;
    assert Budget(r).body[8..12] == ToLE(r.family, 4);
    FromLEOfToLE(r.family, 4);
  }

  /** Every budget row served is one of the character's own class, and every row of that class is served. */
  lemma OwnBudgetOnly(v: Seen)
    requires Served(v)
    ensures forall p :: p in Script(v) && p.opcode == SMSG_CA_ESSENCE_BUDGET ==> OfFamily(p, v.clas.value)
    ensures forall r :: r in v.essence && r.family == v.clas.value ==> Budget(r) in Script(v)
  {
    hide ActiveSpec, ClassByte, Budget, Known, RowsFor, OfFamily;
    Opcodes(v);
    var rows := RowsFor(v.essence, v.clas.value);
    forall p | p in Script(v) && p.opcode == SMSG_CA_ESSENCE_BUDGET ensures OfFamily(p, v.clas.value) {
      var i :| 0 <= i < |rows| && Budgets(rows)[i] == p;
      RowsForMembers(v.essence, v.clas.value, rows[i]);
      BudgetFamily(rows[i]);
    }
    forall r | r in v.essence && r.family == v.clas.value ensures Budget(r) in Script(v) {
      RowsForMembers(v.essence, v.clas.value, r);
      var i :| 0 <= i < |rows| && rows[i] == r;
      assert Budgets(rows)[i] == Budget(r);
    }
  }

  /** The update's block is read back as the one dword, with the stored class in its second byte and the
      character's own race and gender around it. */
  lemma ClassUpdateSays(race: byte, clas: nat, gender: byte, power: byte, more: seq<byte>)
    ensures var f := ClassFields(race, clas, gender, power);
            && UpdateMask.Read(UpdateMask.Printed(f, MaskWords()) + more) == Some((f, more))
            && f[UNIT_FIELD_BYTES_0] == [race, clas % 0x100, gender, power]
  {
    hide UpdateMask.Read, UpdateMask.Printed;
    var f := ClassFields(race, clas, gender, power);
    UpdateMask.BlockRoundTrip(f, MaskWords(), more);
    DwordBytes(race, clas, gender, power);
  }

  lemma DwordBytes(race: byte, clas: nat, gender: byte, power: byte)
    ensures ToLE(Bytes0(race, clas, gender, power), 4) == [race, clas % 0x100, gender, power]
  {
    hide ToLE;
    var bs: seq<byte> := [race, clas % 0x100, gender, power];
    assert bs[1..] == [clas % 0x100, gender, power] && bs[1..][1..] == [gender, power] && bs[1..][1..][1..] == [power];
    assert FromLE([power]) == power;
    assert FromLE([gender, power]) == gender + 0x100 * power;
    assert FromLE(bs) == Bytes0(race, clas, gender, power);
    ToLEOfFromLE(bs);
  }

  lemma ClassByteFits(v: Seen, clas: nat)
    ensures forall p :: p in ClassByte(v, clas) ==> FitsS2C(p)
  {
    if v.guid.Some? && v.look.Some? {
      hide PackedGuid.Packed, UpdateMask.Printed, ClassFields;
      var f := ClassFields(v.look.value.0, clas, v.look.value.1, v.power);
      assert |f| == 1 by {
        OneField(v.look.value.0, clas, v.look.value.1, v.power);
      }
      UpdateMask.BlockSize(f, MaskWords());
    }
  }

  lemma OneField(race: byte, clas: nat, gender: byte, power: byte)
    ensures |ClassFields(race, clas, gender, power)| == 1
  {}

  lemma KnownFits(es: seq<Entry>)
    requires |es| <= MAX_UPLOAD
    ensures FitsS2C(Known(es))
  {
    hide EntriesBytes, ToLE;
  }

  /** Every packet of a script has a frame, as long as the entries came from uploads. */
  lemma ScriptFits(v: Seen)
    requires |v.known| <= MAX_UPLOAD
    ensures forall p :: p in Script(v) ==> FitsS2C(p)
  {
    hide RowsFor, FitsS2C, ActiveSpec, ClassByte, Budget, Known;
    KnownFits(v.known);
    if Served(v) {
      ClassByteFits(v, v.clas.value);
      var rows := RowsFor(v.essence, v.clas.value);
      forall p | p in Budgets(rows) ensures FitsS2C(p) {
        var i :| 0 <= i < |rows| && Budgets(rows)[i] == p;
        assert p == Budget(rows[i]);
      }
    }
  }
}
