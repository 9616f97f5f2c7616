/** Putting a journal's entries back: when it restores the table, and what a dropped row loses. */
module Restoring {
  import opened Bytes
  import opened Dbc
  import opened Sanitize

  ghost predicate EntriesFit(size: nat, entries: seq<Entry>) {
    && 4 <= size
    && forall k | 0 <= k < |entries| ::
         entries[k].field != 0 && 4 * entries[k].field + 4 <= size && entries[k].value < WORD
  }

  /** One entry names its row by id: every row with that id gets the value. */
  function PutBack(rows: seq<seq<byte>>, size: nat, e: Entry): (out: seq<seq<byte>>)
    requires Shaped(rows, size) && 4 <= size && 4 * e.field + 4 <= size
    ensures |out| == |rows| && Shaped(out, size)
  {
    seq(|rows|, r requires 0 <= r < |rows| =>
      if Cell(rows[r], 0) == e.id then Set(rows[r], 4 * e.field, e.value) else rows[r])
  }

  function Restored(rows: seq<seq<byte>>, size: nat, entries: seq<Entry>): (out: seq<seq<byte>>)
    requires Shaped(rows, size) && EntriesFit(size, entries)
    ensures |out| == |rows| && Shaped(out, size)
    decreases |entries|
  {
    if entries == [] then rows
    else
      var n := |entries| - 1;
      PutBack(Restored(rows, size, entries[..n]), size, entries[n])
  }

  /** The last value the entries hold for a slot. */
  function LastFor(entries: seq<Entry>, id: nat, field: nat): Option<nat>
    decreases |entries|
  {
    if entries == [] then None
    else
      var n := |entries| - 1;
      if entries[n].id == id && entries[n].field == field then Some(entries[n].value)
      else LastFor(entries[..n], id, field)
  }

  lemma {:induction false} LastForExact(entries: seq<Entry>, id: nat, field: nat)
    ensures LastFor(entries, id, field).Some? ==> Entry(id, field, LastFor(entries, id, field).value) in entries
    ensures LastFor(entries, id, field).None? ==> forall e | e in entries :: !(e.id == id && e.field == field)
    decreases |entries|
  {
    if entries != [] {
      var n := |entries| - 1;
      LastForExact(entries[..n], id, field);
      assert entries == entries[..n] + [entries[n]];
    }
  }

  lemma PutBackCell(rows: seq<seq<byte>>, size: nat, e: Entry, r: nat, g: nat)
    requires Shaped(rows, size) && 4 <= size && 4 * e.field + 4 <= size && e.value < WORD && r < |rows|
    requires 4 * g + 4 <= size
    ensures Cell(PutBack(rows, size, e)[r], g)
         == if Cell(rows[r], 0) == e.id && g == e.field then e.value else Cell(rows[r], g)
  {
    hide FromLE, Get, Set, Cell;
    FieldsApart(rows[r], e.field, g, e.value);
  }

  lemma {:induction false} RestoredCell(rows: seq<seq<byte>>, size: nat, entries: seq<Entry>, r: nat, g: nat)
    requires Shaped(rows, size) && EntriesFit(size, entries) && r < |rows| && 4 * g + 4 <= size
    ensures Cell(Restored(rows, size, entries)[r], g)
         == match LastFor(entries, Cell(rows[r], 0), g) { case Some(v) => v case None => Cell(rows[r], g) }
    decreases |entries|
  {
    hide FromLE, Get, Set, Cell, PutBack;
    if entries != [] {
      var n := |entries| - 1;
      RestoredCell(rows, size, entries[..n], r, g);
      RestoredCell(rows, size, entries[..n], r, 0);
      IdNever(entries[..n], size, Cell(rows[r], 0));
      PutBackCell(Restored(rows, size, entries[..n]), size, entries[n], r, g);
    }
  }

  /** No entry writes an id. */
  lemma IdNever(entries: seq<Entry>, size: nat, id: nat)
    requires EntriesFit(size, entries)
    ensures LastFor(entries, id, 0).None?
  {
    LastForExact(entries, id, 0);
  }

  lemma {:induction false} RestoredKeeps(rows: seq<seq<byte>>, size: nat, entries: seq<Entry>, fields: seq<nat>,
                                         r: nat, k: nat)
    requires Shaped(rows, size) && EntriesFit(size, entries) && r < |rows| && k < size
    requires !InFields(fields, k) && forall e | e in entries :: e.field in fields
    ensures Restored(rows, size, entries)[r][k] == rows[r][k]
    decreases |entries|
  {
    hide FromLE, Set, Cell;
    if entries != [] {
      var n := |entries| - 1;
      RestoredKeeps(rows, size, entries[..n], fields, r, k);
      var e, t := entries[n], Restored(rows, size, entries[..n]);
      assert e in entries && e.field in fields;
      SetKeeps(t[r], 4 * e.field, e.value, k);
    }
  }

  // ---- the journal of a zero rule -----------------------------------------------------------------------

  /** Rows that share an id with a silenced slot hold the same value there. */
  ghost predicate NoClash(rows: seq<seq<byte>>, size: nat, rule: Rule)
    requires Shaped(rows, size) && FieldsFit(size, rule.fields)
  {
    forall q, r, i | 0 <= q < |rows| && 0 <= r < |rows| && 0 <= i < |rule.fields| ::
      Cell(rows[r], rule.fields[i]) >= rule.cap && Cell(rows[q], 0) == Cell(rows[r], 0)
      ==> Cell(rows[q], rule.fields[i]) == Cell(rows[r], rule.fields[i])
  }

  lemma RecordedExact(rows: seq<seq<byte>>, size: nat, rule: Rule, e: Entry)
    requires Shaped(rows, size) && FieldsFit(size, rule.fields)
    ensures e in Recorded(rows, size, rule) <==>
            e.field in rule.fields && exists r | 0 <= r < |rows| ::
              Cell(rows[r], 0) == e.id && 4 * e.field + 4 <= size && Cell(rows[r], e.field) == e.value >= rule.cap
  {
    hide FromLE, Get, Cell, Scan;
    var hits, es := Scan(rows, size, rule.fields, rule.cap), Recorded(rows, size, rule);
    HitsInside(rows, size, rule.fields, rule.cap);
    if e in es {
      var k :| 0 <= k < |es| && es[k] == e;
      ScanExact(rows, size, rule.fields, rule.cap, hits[k]);
      assert Cell(rows[hits[k].row], 0) == e.id;
    }
    if e.field in rule.fields {
      if r :| 0 <= r < |rows| && Cell(rows[r], 0) == e.id && Cell(rows[r], e.field) == e.value >= rule.cap {
        ScanExact(rows, size, rule.fields, rule.cap, Hit(r, e.field, e.value));
        var k :| 0 <= k < |hits| && hits[k] == Hit(r, e.field, e.value);
        assert es[k] == e;
      }
    }
  }

  lemma RecordedFits(rows: seq<seq<byte>>, size: nat, rule: Rule)
    requires Shaped(rows, size) && FieldsFit(size, rule.fields) && 0 !in rule.fields
    ensures EntriesFit(size, Recorded(rows, size, rule))
    ensures forall e | e in Recorded(rows, size, rule) :: e.field in rule.fields
  {
    hide FromLE, Get, Cell, Recorded;
    var es := Recorded(rows, size, rule);
    forall k | 0 <= k < |es|
      ensures es[k].field != 0 && 4 * es[k].field + 4 <= size && es[k].value < WORD && es[k].field in rule.fields
    {
      RecordedExact(rows, size, rule, es[k]);
      var r :| 0 <= r < |rows| && Cell(rows[r], es[k].field) == es[k].value;
      CellBound(rows[r], es[k].field);
    }
  }

  lemma CellBound(row: seq<byte>, f: nat)
    requires 4 * f + 4 <= |row|
    ensures Cell(row, f) < WORD
  {
    GetBound(row, 4 * f);
  }

  /** The value a restored slot ends with. */
  lemma RestoredSlot(rows: seq<seq<byte>>, size: nat, rule: Rule, q: nat, g: nat)
    requires Shaped(rows, size) && FieldsFit(size, rule.fields) && 0 !in rule.fields && rule.zero
    requires q < |rows| && g in rule.fields
    ensures EntriesFit(size, Recorded(rows, size, rule)) && 4 * g + 4 <= size && |Applied(rows, size, rule)| == |rows|
    ensures var last := LastFor(Recorded(rows, size, rule), Cell(rows[q], 0), g);
            && Cell(Restored(Applied(rows, size, rule), size, Recorded(rows, size, rule))[q], g)
               == (if last.Some? then last.value else Cell(rows[q], g))
            && (last.None? ==> Cell(rows[q], g) < rule.cap)
  {
    hide FromLE, Get, Cell, Recorded, Restored, Applied, LastFor;
    var es, out := Recorded(rows, size, rule), Applied(rows, size, rule);
    RecordedFits(rows, size, rule);
    ZeroRuleCell(rows, size, rule, q, 0);
    ZeroRuleCell(rows, size, rule, q, g);
    RestoredCell(out, size, es, q, g);
    LastForExact(es, Cell(rows[q], 0), g);
    RecordedExact(rows, size, rule, Entry(Cell(rows[q], 0), g, Cell(rows[q], g)));
  }

  lemma RestoreIfNoClash(rows: seq<seq<byte>>, size: nat, rule: Rule)
    requires Shaped(rows, size) && FieldsFit(size, rule.fields) && 0 !in rule.fields && rule.zero
    requires NoClash(rows, size, rule)
    ensures EntriesFit(size, Recorded(rows, size, rule))
    ensures Restored(Applied(rows, size, rule), size, Recorded(rows, size, rule)) == rows
  {
    hide FromLE, Get, Cell, Recorded, Restored, Applied, LastFor, InFields;
    var es, out := Recorded(rows, size, rule), Applied(rows, size, rule);
    RecordedFits(rows, size, rule);
    ZeroRuleShape(rows, size, rule);
    var back := Restored(out, size, es);
    forall q | 0 <= q < |rows| ensures back[q] == rows[q] {
      forall i | 0 <= i < |rule.fields| ensures Cell(back[q], rule.fields[i]) == Cell(rows[q], rule.fields[i]) {
        SlotRestored(rows, size, rule, q, i);
      }
      forall k | 0 <= k < size && !InFields(rule.fields, k) ensures back[q][k] == rows[q][k] {
        RestoredKeeps(out, size, es, rule.fields, q, k);
        ZeroRuleKeeps(rows, size, rule, q, k);
      }
      SameRow(back[q], rows[q], rule.fields);
    }
  }

  lemma SlotRestored(rows: seq<seq<byte>>, size: nat, rule: Rule, q: nat, i: nat)
    requires Shaped(rows, size) && FieldsFit(size, rule.fields) && 0 !in rule.fields && rule.zero
    requires NoClash(rows, size, rule) && q < |rows| && i < |rule.fields|
    ensures EntriesFit(size, Recorded(rows, size, rule)) && |Applied(rows, size, rule)| == |rows|
    ensures Cell(Restored(Applied(rows, size, rule), size, Recorded(rows, size, rule))[q], rule.fields[i])
         == Cell(rows[q], rule.fields[i])
  {
    hide FromLE, Get, Cell, Recorded, Restored, Applied, LastFor;
    var g, es := rule.fields[i], Recorded(rows, size, rule);
    RestoredSlot(rows, size, rule, q, g);
    LastForExact(es, Cell(rows[q], 0), g);
    var last := LastFor(es, Cell(rows[q], 0), g);
    if last.Some? {
      RecordedExact(rows, size, rule, Entry(Cell(rows[q], 0), g, last.value));
    }
  }

  lemma ClashIsLost(rows: seq<seq<byte>>, size: nat, rule: Rule, q: nat, r: nat, i: nat)
    requires Shaped(rows, size) && FieldsFit(size, rule.fields) && 0 !in rule.fields && rule.zero
    requires q < |rows| && r < |rows| && i < |rule.fields| && Cell(rows[q], 0) == Cell(rows[r], 0)
    requires Cell(rows[r], rule.fields[i]) >= rule.cap && Cell(rows[q], rule.fields[i]) != Cell(rows[r], rule.fields[i])
    ensures EntriesFit(size, Recorded(rows, size, rule))
    ensures Restored(Applied(rows, size, rule), size, Recorded(rows, size, rule)) != rows
  {
    hide FromLE, Get, Cell, Recorded, Restored, Applied, LastFor;
    RestoredSlot(rows, size, rule, q, rule.fields[i]);
    RestoredSlot(rows, size, rule, r, rule.fields[i]);
  }

  /** Writing a zero rule's journal back restores the table exactly when no two rows with one id differ in a
      silenced slot. */
  lemma JournalRestoresExactly(rows: seq<seq<byte>>, size: nat, rule: Rule)
    requires Shaped(rows, size) && FieldsFit(size, rule.fields) && 0 !in rule.fields && rule.zero
    ensures EntriesFit(size, Recorded(rows, size, rule))
    ensures Restored(Applied(rows, size, rule), size, Recorded(rows, size, rule)) == rows <==> NoClash(rows, size, rule)
  {
    hide FromLE, Get, Cell, Recorded, Restored, Applied;
    RecordedFits(rows, size, rule);
    if NoClash(rows, size, rule) {
      RestoreIfNoClash(rows, size, rule);
    } else {
      var q, r, i :| 0 <= q < |rows| && 0 <= r < |rows| && 0 <= i < |rule.fields|
        && Cell(rows[r], rule.fields[i]) >= rule.cap && Cell(rows[q], 0) == Cell(rows[r], 0)
        && Cell(rows[q], rule.fields[i]) != Cell(rows[r], rule.fields[i]);
      ClashIsLost(rows, size, rule, q, r, i);
    }
  }

  ghost predicate DistinctIds(rows: seq<seq<byte>>, size: nat)
    requires Shaped(rows, size) && 4 <= size
  {
    forall q, r | 0 <= q < r < |rows| :: Cell(rows[q], 0) != Cell(rows[r], 0)
  }

  // ---- the journal of a run ----------------------------------------------------------------------------

  function EntriesOf(journal: Journal, name: string): seq<Entry> {
    if name in journal then journal[name].entries else []
  }

  ghost predicate NotesFit(size: nat, rules: seq<Rule>, journal: Journal) {
    forall i | 0 <= i < |rules| :: EntriesFit(size, EntriesOf(journal, rules[i].name))
  }

  /** What the journal holds for these rules, put back rule by rule, the last first. */
  ghost function Back(rows: seq<seq<byte>>, size: nat, rules: seq<Rule>, journal: Journal): (out: seq<seq<byte>>)
    requires Shaped(rows, size) && NotesFit(size, rules, journal)
    ensures Shaped(out, size)
    decreases |rules|
  {
    if rules == [] then rows
    else
      assert forall i | 0 <= i < |rules[1..]| :: rules[1..][i] == rules[i + 1];
      Restored(Back(rows, size, rules[1..], journal), size, EntriesOf(journal, rules[0].name))
  }

  /** Zero rules that leave the id alone, each with a name of its own. */
  ghost predicate ZeroRules(size: nat, rules: seq<Rule>) {
    && RulesFit(size, rules)
    && (forall i | 0 <= i < |rules| :: rules[i].zero && 0 !in rules[i].fields)
    && (forall i, j | 0 <= i < j < |rules| :: rules[i].name != rules[j].name)
  }

  /** No rule that finds nothing at its turn has a note of an earlier run. */
  ghost predicate NoOldNotes(rows: seq<seq<byte>>, size: nat, rules: seq<Rule>, journal: Journal)
    requires Shaped(rows, size) && RulesFit(size, rules)
    decreases |rules|
  {
    rules == [] ||
    var rule := rules[0];
    if Scan(rows, size, rule.fields, rule.cap) == [] then
      rule.name !in journal && NoOldNotes(rows, size, rules[1..], journal)
    else NoOldNotes(Applied(rows, size, rule), size, rules[1..],
                    journal[rule.name := Note(rule.zero, rule.cap, Recorded(rows, size, rule))])
  }

  lemma {:induction false} RunKeepsNote(rows: seq<seq<byte>>, size: nat, rules: seq<Rule>, journal: Journal,
                                        name: string)
    requires Shaped(rows, size) && RulesFit(size, rules) && forall i | 0 <= i < |rules| :: rules[i].name != name
    ensures EntriesOf(Run(rows, size, rules, journal).journal, name) == EntriesOf(journal, name)
    decreases |rules|
  {
    hide Scan, Applied, FieldsFit, Shaped, Recorded;
    if rules != [] {
      var rule := rules[0];
      if Scan(rows, size, rule.fields, rule.cap) == [] {
        RunKeepsNote(rows, size, rules[1..], journal, name);
      } else {
        RunKeepsNote(Applied(rows, size, rule), size, rules[1..],
                     journal[rule.name := Note(rule.zero, rule.cap, Recorded(rows, size, rule))], name);
      }
    }
  }

  lemma DistinctStay(rows: seq<seq<byte>>, size: nat, rule: Rule)
    requires Shaped(rows, size) && FieldsFit(size, rule.fields) && rule.zero && 0 !in rule.fields
    requires DistinctIds(rows, size)
    ensures DistinctIds(Applied(rows, size, rule), size)
  {
    hide FromLE, Get, Cell, Applied;
    ZeroRuleShape(rows, size, rule);
    forall r | 0 <= r < |rows| ensures Cell(Applied(rows, size, rule)[r], 0) == Cell(rows[r], 0) {
      ZeroRuleCell(rows, size, rule, r, 0);
    }
  }

  lemma RuleRestores(rows: seq<seq<byte>>, size: nat, rule: Rule)
    requires Shaped(rows, size) && FieldsFit(size, rule.fields) && rule.zero && 0 !in rule.fields
    requires DistinctIds(rows, size)
    ensures EntriesFit(size, Recorded(rows, size, rule))
    ensures Restored(Applied(rows, size, rule), size, Recorded(rows, size, rule)) == rows
  {
    hide FromLE, Get, Cell, Recorded, Restored, Applied;
    JournalRestoresExactly(rows, size, rule);
  }

  /** With distinct row ids, the journal a run of zero rules returns puts the table back, whatever other notes it
      holds. */
  lemma {:induction false} JournalsRestore(rows: seq<seq<byte>>, size: nat, rules: seq<Rule>, journal: Journal)
    requires Shaped(rows, size) && 4 <= size && ZeroRules(size, rules) && DistinctIds(rows, size)
    requires NoOldNotes(rows, size, rules, journal)
    ensures var o := Run(rows, size, rules, journal);
            NotesFit(size, rules, o.journal) && Back(o.rows, size, rules, o.journal) == rows
    decreases |rules|
  {
    hide Scan, Applied, FieldsFit, Shaped, Recorded, Restored, DistinctIds, EntriesFit;
    if rules != [] {
      var rule, rest := rules[0], rules[1..];
      var mid, j := rows, journal;
      if Scan(rows, size, rule.fields, rule.cap) != [] {
        mid := Applied(rows, size, rule);
        j := journal[rule.name := Note(rule.zero, rule.cap, Recorded(rows, size, rule))];
        DistinctStay(rows, size, rule);
        RuleRestores(rows, size, rule);
      } else {
        NothingToPutBack(rows, size);
      }
      JournalsRestore(mid, size, rest, j);
      RunKeepsNote(mid, size, rest, j, rule.name);
      var o := Run(rows, size, rules, journal);
      forall i | 0 <= i < |rules| ensures EntriesFit(size, EntriesOf(o.journal, rules[i].name)) {
        if i > 0 {
          assert rules[i] == rest[i - 1];
        }
      }
    }
  }

  lemma NothingToPutBack(rows: seq<seq<byte>>, size: nat)
    requires Shaped(rows, size) && 4 <= size
    ensures EntriesFit(size, []) && Restored(rows, size, []) == rows
  {}

  /** And still does after a second run. */
  lemma SecondRunRestores(rows: seq<seq<byte>>, size: nat, rules: seq<Rule>, journal: Journal)
    requires Shaped(rows, size) && 4 <= size && ZeroRules(size, rules) && Capped(rules) && DistinctIds(rows, size)
    requires NoOldNotes(rows, size, rules, journal)
    ensures var o := Run(rows, size, rules, journal); var again := Run(o.rows, size, rules, o.journal);
            NotesFit(size, rules, again.journal) && Back(again.rows, size, rules, again.journal) == rows
  {
    hide Run, Back, NoOldNotes, DistinctIds, Capped;
    JournalsRestore(rows, size, rules, journal);
    SecondRunIsIdle(rows, size, rules, journal, Run(rows, size, rules, journal).journal);
  }

  // ---- a dropped row ------------------------------------------------------------------------------------

  function Altered(row: seq<byte>, k: nat, other: byte): (t: seq<byte>)
    requires k < |row|
    ensures |t| == |row|
  {
    row[..k] + [other] + row[k + 1..]
  }

  /** A drop forgets: change any byte of a dropped row outside its id and the rule's fields, and both the file and
      the journal come out the same, so nothing could tell which it was. */
  lemma DropForgets(rows: seq<seq<byte>>, size: nat, rule: Rule, r: nat, k: nat, other: byte)
    requires Shaped(rows, size) && FieldsFit(size, rule.fields) && !rule.zero && r < |rows| && 4 <= k < size
    requires r in HitRows(Scan(rows, size, rule.fields, rule.cap)) && !InFields(rule.fields, k) && other != rows[r][k]
    ensures var rows' := rows[r := Altered(rows[r], k, other)];
            && rows' != rows && Shaped(rows', size)
            && Applied(rows', size, rule) == Applied(rows, size, rule)
            && Recorded(rows', size, rule) == Recorded(rows, size, rule)
  {
    hide FromLE, Get, Scan, Cell, Without;
    var rows' := rows[r := Altered(rows[r], k, other)];
    assert rows'[r][k] != rows[r][k];
    forall q, i | 0 <= q < |rows| && 0 <= i < |rule.fields|
      ensures Cell(rows'[q], rule.fields[i]) == Cell(rows[q], rule.fields[i])
    {
      OtherByte(rows[r], rule.fields[i], k, other);
    }
    ScanUnmoved(rows, rows', size, rule.fields, rule.cap);
    WithoutSame(rows, rows', HitRows(Scan(rows, size, rule.fields, rule.cap)));
    OtherByte(rows[r], 0, k, other);
    HitsInside(rows, size, rule.fields, rule.cap);
    HitsInside(rows', size, rule.fields, rule.cap);
  }

  lemma OtherByte(row: seq<byte>, f: nat, k: nat, other: byte)
    requires 4 * f + 4 <= |row| && k < |row| && !(4 * f <= k < 4 * f + 4)
    ensures Cell(Altered(row, k, other), f) == Cell(row, f)
  {
    hide FromLE;
    assert Altered(row, k, other)[4 * f..4 * f + 4] == row[4 * f..4 * f + 4];
  }

  lemma {:induction false} WithoutSame(rows: seq<seq<byte>>, rows': seq<seq<byte>>, drop: set<nat>)
    requires |rows| == |rows'| && forall r | 0 <= r < |rows| && r !in drop :: rows[r] == rows'[r]
    ensures Without(rows, drop) == Without(rows', drop)
    decreases |rows|
  {
    if rows != [] {
      var n := |rows| - 1;
      WithoutSame(rows[..n], rows'[..n], drop);
    }
  }
}
