/** The sanitiser as the tool runs it: slots zeroed in the file's bytes, rows dropped into a new buffer, and the
    journal updated in place. */
module SanitizeFile {
  import opened Bytes
  import opened Dbc
  import opened Sanitize
  import R = RepairFile

  lemma {:induction false} WithoutCount(rows: seq<seq<byte>>, drop: set<nat>)
    requires forall r | r in drop :: r < |rows|
    ensures |Without(rows, drop)| + |drop| == |rows|
    decreases |rows|
  {
    if rows == [] {
      assert drop == {};
    } else {
      var n := |rows| - 1;
      WithoutCount(rows[..n], drop - {n});
      WithoutBelow(rows[..n], drop, n);
    }
  }

  lemma {:induction false} WithoutBelow(rows: seq<seq<byte>>, drop: set<nat>, n: nat)
    requires |rows| <= n
    ensures Without(rows, drop - {n}) == Without(rows, drop)
    decreases |rows|
  {
    if rows != [] {
      WithoutBelow(rows[..|rows| - 1], drop, n);
    }
  }

  lemma WithoutStep(rows: seq<seq<byte>>, n: nat, drop: set<nat>)
    requires n < |rows|
    ensures Flat(Without(rows[..n + 1], drop)) == Flat(Without(rows[..n], drop)) + if n in drop then [] else rows[n]
  {
    assert rows[..n + 1][..n] == rows[..n];
    var k := Without(rows[..n], drop);
    if n in drop {
      assert k + [] == k;
      assert Flat(k) + [] == Flat(k);
    } else {
      assert (k + [rows[n]])[..|k|] == k;
    }
  }

  lemma ScanStep(rows: seq<seq<byte>>, size: nat, fields: seq<nat>, cap: nat, n: nat)
    requires Shaped(rows, size) && FieldsFit(size, fields) && n < |rows|
    ensures Scan(rows[..n + 1], size, fields, cap)
         == Scan(rows[..n], size, fields, cap) + RowHits(rows[n], n, size, fields, cap, |fields|)
  {
    hide RowHits;
    assert rows[..n + 1][..n] == rows[..n];
  }

  /** `scan`. */
  method ScanFile(blob: array<byte>, ghost f: File, count: nat, size: nat, rule: Rule) returns (hits: seq<Hit>)
    requires Valid(f) && blob[..] == Written(f) && count == |f.rows| && size == f.size && FieldsFit(size, rule.fields)
    ensures hits == Scan(f.rows, size, rule.fields, rule.cap)
  {
    hide FromLE, Written, Scan;
    hits := [];
    assert f.rows[..0] == [];
    ScanNothing(size, rule.fields, rule.cap);
    for r := 0 to count
      invariant hits == Scan(f.rows[..r], size, rule.fields, rule.cap)
    {
      ghost var before := hits;
      ScanStep(f.rows, size, rule.fields, rule.cap, r);
      for i := 0 to |rule.fields|
        invariant hits == before + RowHits(f.rows[r], r, size, rule.fields, rule.cap, i)
      {
        var v := R.ReadCell(blob, f, size, r, 4 * rule.fields[i]);
        if v >= rule.cap {
          hits := hits + [Hit(r, rule.fields[i], v)];
        }
      }
    }
    assert f.rows[..count] == f.rows;
  }

  lemma ScanNothing(size: nat, fields: seq<nat>, cap: nat)
    requires FieldsFit(size, fields)
    ensures Scan([], size, fields, cap) == []
  {}

  /** The zero action, slot by slot in place. */
  method ZeroSlots(blob: array<byte>, ghost f: File, size: nat, hits: seq<Hit>)
    requires Valid(f) && blob[..] == Written(f) && size == f.size && HitsIn(f.rows, size, hits)
    modifies blob
    ensures blob[..] == Written(f.(rows := Zeroed(f.rows, size, hits)))
  {
    hide FromLE, ToLE, Written, Set;
    assert f.(rows := f.rows) == f;
    for k := 0 to |hits|
      invariant blob[..] == Written(f.(rows := Zeroed(f.rows, size, hits[..k])))
    {
      assert hits[..k + 1][..k] == hits[..k];
      R.WriteCell(blob, f.(rows := Zeroed(f.rows, size, hits[..k])), size, hits[k].row, 4 * hits[k].field, 0);
    }
    assert hits[..|hits|] == hits;
  }

  method KeepRows(blob: array<byte>, ghost f: File, count: nat, size: nat, drop: set<nat>) returns (keep: seq<byte>)
    requires Valid(f) && blob[..] == Written(f) && count == |f.rows| && size == f.size
    ensures keep == Flat(Without(f.rows, drop))
  {
    hide FromLE, Written, Flat, Without;
    keep := [];
    assert f.rows[..0] == [];
    WithoutNothing(drop);
    for r := 0 to count
      invariant keep == Flat(Without(f.rows[..r], drop))
    {
      R.RowOfWritten(f, r);
      WithoutStep(f.rows, r, drop);
      if r !in drop {
        keep := keep + RowAt(blob[..], size, r);
      }
    }
    assert f.rows[..count] == f.rows;
  }

  lemma WithoutNothing(drop: set<nat>)
    ensures Flat(Without([], drop)) == []
  {}

  /** The drop action: the other rows between the header and the strings, and the new count. */
  method DropHits(blob: array<byte>, ghost f: File, count: nat, size: nat, drop: set<nat>) returns (out: array<byte>)
    requires Valid(f) && blob[..] == Written(f) && count == |f.rows| && size == f.size
    requires forall r | r in drop :: r < count
    ensures fresh(out) && out[..] == Written(f.(rows := Without(f.rows, drop)))
  {
    hide FromLE, Written, Head, Flat, Without, Set;
    var keep := KeepRows(blob, f, count, size, drop);
    ghost var g := f.(rows := Without(f.rows, drop));
    WithoutShape(f.rows, size, drop);
    WithoutCount(f.rows, drop);
    R.RebuiltBytes(f, g);
    var data := blob[..][..BASE] + keep + blob[..][BASE + count * size..];
    out := new byte[|data|](i requires 0 <= i < |data| => data[i]);
    assert out[..] == data;
    R.Pack(out, 4, count - |drop|);
  }

  class Sanitizer {
    var journal: Journal

    constructor (journal: Journal)
      ensures this.journal == journal
    {
      this.journal := journal;
    }

    /** One rule: scan, record, apply. */
    method RunRule(blob: array<byte>, ghost f: File, count: nat, size: nat, rule: Rule)
      returns (out: array<byte>, rows: nat)
      requires Valid(f) && blob[..] == Written(f) && count == |f.rows| && size == f.size && FieldsFit(size, rule.fields)
      modifies this, blob
      ensures out == blob || fresh(out)
      ensures var o := Run(f.rows, size, [rule], old(journal));
              && Valid(f.(rows := o.rows)) && out[..] == Written(f.(rows := o.rows)) && rows == |o.rows|
              && journal == o.journal
    {
      hide FromLE, Written, Scan, Entries, Zeroed, Without;
      OneRule(f.rows, size, rule, journal);
      var hits := ScanFile(blob, f, count, size, rule);
      HitsInside(f.rows, size, rule.fields, rule.cap);
      out, rows := blob, count;
      assert f.(rows := f.rows) == f;
      if hits == [] {
        return;
      }
      var entries := Record(blob, f, size, hits);
      journal := journal[rule.name := Note(rule.zero, rule.cap, entries)];
      if rule.zero {
        ZeroSlots(blob, f, size, hits);
      } else {
        var drop := HitRows(hits);
        WithoutCount(f.rows, drop);
        WithoutShape(f.rows, size, drop);
        out := DropHits(blob, f, count, size, drop);
        rows := count - |drop|;
      }
    }

    /** The journal entries, read before anything is written. */
    method Record(blob: array<byte>, ghost f: File, size: nat, hits: seq<Hit>) returns (entries: seq<Entry>)
      requires Valid(f) && blob[..] == Written(f) && size == f.size && 4 <= size && HitsIn(f.rows, size, hits)
      ensures entries == Entries(f.rows, size, hits)
    {
      hide FromLE, Written;
      entries := [];
      for k := 0 to |hits|
        invariant |entries| == k
        invariant forall j | 0 <= j < k :: entries[j] == Entries(f.rows, size, hits)[j]
      {
        var id := R.ReadCell(blob, f, size, hits[k].row, 0);
        entries := entries + [Entry(id, hits[k].field, hits[k].value)];
      }
    }

    /** All rules of one file. */
    method SanitizeTable(blob: array<byte>, rules: seq<Rule>) returns (out: array<byte>)
      requires Holds(blob[..]) && RulesFit(Read(blob[..]).size, rules)
      modifies this, blob
      ensures var f := Read(old(blob[..]));
              var o := Run(f.rows, f.size, rules, old(journal));
              out[..] == Written(f.(rows := o.rows)) && journal == o.journal
    {
      hide FromLE, Written, Read, Get, Run, FieldsFit;
      ghost var f := Read(blob[..]);
      WrittenOfRead(blob[..]);
      R.ReadFields(blob[..]);
      assert f.(rows := f.rows) == f;
      var count, size := Get(blob[..], 4), Get(blob[..], 12);
      out := blob;
      ghost var rows := f.rows;
      for i := 0 to |rules|
        invariant out == blob || fresh(out)
        invariant Valid(f.(rows := rows)) && count == |rows| && out[..] == Written(f.(rows := rows))
        invariant Run(rows, size, rules[i..], journal) == Run(f.rows, size, rules, old(journal))
      {
        assert rules[i..][0] == rules[i] && rules[i..][1..] == rules[i + 1..];
        RunStep(rows, size, rules[i..], journal);
        ghost var o := Run(rows, size, [rules[i]], journal);
        out, count := RunRule(out, f.(rows := rows), count, size, rules[i]);
        rows := o.rows;
      }
      RunNone(rows, size, journal);
      assert rules[|rules|..] == [];
    }
  }

  lemma OneRule(rows: seq<seq<byte>>, size: nat, rule: Rule, journal: Journal)
    requires Shaped(rows, size) && FieldsFit(size, rule.fields)
    ensures Run(rows, size, [rule], journal)
         == if Scan(rows, size, rule.fields, rule.cap) == [] then Outcome(rows, journal)
            else Outcome(Applied(rows, size, rule),
                         journal[rule.name := Note(rule.zero, rule.cap, Recorded(rows, size, rule))])
  {
    hide Scan, Applied, Recorded;
    assert [rule][1..] == [];
  }

  lemma RunNone(rows: seq<seq<byte>>, size: nat, journal: Journal)
    requires Shaped(rows, size)
    ensures Run(rows, size, [], journal) == Outcome(rows, journal)
  {}

  lemma RunStep(rows: seq<seq<byte>>, size: nat, rules: seq<Rule>, journal: Journal)
    requires Shaped(rows, size) && RulesFit(size, rules) && rules != []
    ensures var o := Run(rows, size, [rules[0]], journal);
            Run(rows, size, rules, journal) == Run(o.rows, size, rules[1..], o.journal)
  {
    hide Scan, Applied, Recorded, FieldsFit;
    OneRule(rows, size, rules[0], journal);
  }
}
