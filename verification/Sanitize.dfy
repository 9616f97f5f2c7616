/** Values the core has no room for: which slots hold them, how each rule silences them, and the journal that is
    meant to undo it. */
module Sanitize {
  import opened Bytes
  import opened Dbc

  /** Zero the offending slot, or drop the row. */
  datatype Rule = Rule(name: string, fields: seq<nat>, zero: bool, cap: nat)

  datatype Hit = Hit(row: nat, field: nat, value: nat)

  datatype Entry = Entry(id: nat, field: nat, value: nat)

  /** What the journal holds for one rule. */
  datatype Note = Note(zero: bool, cap: nat, entries: seq<Entry>)

  type Journal = map<string, Note>

  /** The id and every field of the rule lie inside a record. */
  ghost predicate FieldsFit(size: nat, fields: seq<nat>) {
    4 <= size && forall i | 0 <= i < |fields| :: 4 * fields[i] + 4 <= size
  }

  ghost predicate Shaped(rows: seq<seq<byte>>, size: nat) {
    forall r | 0 <= r < |rows| :: |rows[r]| == size
  }

  function Cell(row: seq<byte>, field: nat): nat
    requires 4 * field + 4 <= |row|
  {
    Get(row, 4 * field)
  }

  // ---- scan -----------------------------------------------------------------------------------------

  /** The hits of one row among the first n fields. */
  function RowHits(row: seq<byte>, r: nat, size: nat, fields: seq<nat>, cap: nat, n: nat): seq<Hit>
    requires n <= |fields| && |row| == size && FieldsFit(size, fields)
  {
    if n == 0 then []
    else
      var v := Cell(row, fields[n - 1]);
      RowHits(row, r, size, fields, cap, n - 1) + if v >= cap then [Hit(r, fields[n - 1], v)] else []
  }

  function Scan(rows: seq<seq<byte>>, size: nat, fields: seq<nat>, cap: nat): seq<Hit>
    requires Shaped(rows, size) && FieldsFit(size, fields)
    decreases |rows|
  {
    if rows == [] then []
    else
      var n := |rows| - 1;
      Scan(rows[..n], size, fields, cap) + RowHits(rows[n], n, size, fields, cap, |fields|)
  }

  ghost predicate IsHit(rows: seq<seq<byte>>, size: nat, fields: seq<nat>, cap: nat, h: Hit)
    requires Shaped(rows, size) && FieldsFit(size, fields)
  {
    h.row < |rows| && h.field in fields && Cell(rows[h.row], h.field) == h.value >= cap
  }

  lemma {:induction false} RowHitsExact(row: seq<byte>, r: nat, size: nat, fields: seq<nat>, cap: nat, n: nat, h: Hit)
    requires n <= |fields| && |row| == size && FieldsFit(size, fields)
    ensures h in RowHits(row, r, size, fields, cap, n) <==>
            h.row == r && h.field in fields[..n] && Cell(row, h.field) == h.value >= cap
  {
    hide FromLE, Get;
    if n > 0 {
      RowHitsExact(row, r, size, fields, cap, n - 1, h);
      assert fields[..n] == fields[..n - 1] + [fields[n - 1]];
    }
  }

  /** The scan finds exactly the slots at or above the limit. */
  lemma {:induction false} ScanExact(rows: seq<seq<byte>>, size: nat, fields: seq<nat>, cap: nat, h: Hit)
    requires Shaped(rows, size) && FieldsFit(size, fields)
    ensures h in Scan(rows, size, fields, cap) <==> IsHit(rows, size, fields, cap, h)
    decreases |rows|
  {
    hide FromLE, Get;
    if rows != [] {
      var n := |rows| - 1;
      ScanExact(rows[..n], size, fields, cap, h);
      RowHitsExact(rows[n], n, size, fields, cap, |fields|, h);
      assert fields[..|fields|] == fields;
    }
  }

  ghost predicate Quiet(rows: seq<seq<byte>>, size: nat, fields: seq<nat>, cap: nat)
    requires Shaped(rows, size) && FieldsFit(size, fields)
  {
    forall r, i | 0 <= r < |rows| && 0 <= i < |fields| :: Cell(rows[r], fields[i]) < cap
  }

  lemma ScanNone(rows: seq<seq<byte>>, size: nat, fields: seq<nat>, cap: nat)
    requires Shaped(rows, size) && FieldsFit(size, fields)
    ensures Scan(rows, size, fields, cap) == [] <==> Quiet(rows, size, fields, cap)
  {
    hide FromLE, Get, Scan, Cell;
    var hits := Scan(rows, size, fields, cap);
    if hits != [] {
      ScanExact(rows, size, fields, cap, hits[0]);
    } else {
      forall r, i | 0 <= r < |rows| && 0 <= i < |fields| ensures Cell(rows[r], fields[i]) < cap {
        ScanExact(rows, size, fields, cap, Hit(r, fields[i], Cell(rows[r], fields[i])));
      }
    }
  }

  // ---- the two actions --------------------------------------------------------------------------------

  ghost predicate HitsIn(rows: seq<seq<byte>>, size: nat, hits: seq<Hit>) {
    forall k | 0 <= k < |hits| :: hits[k].row < |rows| && 4 * hits[k].field + 4 <= size
  }

  function Zeroed(rows: seq<seq<byte>>, size: nat, hits: seq<Hit>): (out: seq<seq<byte>>)
    requires Shaped(rows, size) && HitsIn(rows, size, hits)
    ensures |out| == |rows| && Shaped(out, size)
    decreases |hits|
  {
    if hits == [] then rows
    else
      var n := |hits| - 1;
      var t, h := Zeroed(rows, size, hits[..n]), hits[n];
      t[h.row := Set(t[h.row], 4 * h.field, 0)]
  }

  function HitRows(hits: seq<Hit>): set<nat> {
    set h | h in hits :: h.row
  }

  function Without(rows: seq<seq<byte>>, drop: set<nat>): seq<seq<byte>>
    decreases |rows|
  {
    if rows == [] then []
    else
      var n := |rows| - 1;
      Without(rows[..n], drop) + if n in drop then [] else [rows[n]]
  }

  lemma {:induction false} WithoutShape(rows: seq<seq<byte>>, size: nat, drop: set<nat>)
    requires Shaped(rows, size)
    ensures Shaped(Without(rows, drop), size) && |Without(rows, drop)| <= |rows|
    decreases |rows|
  {
    if rows != [] {
      WithoutShape(rows[..|rows| - 1], size, drop);
    }
  }

  lemma HitsInside(rows: seq<seq<byte>>, size: nat, fields: seq<nat>, cap: nat)
    requires Shaped(rows, size) && FieldsFit(size, fields)
    ensures HitsIn(rows, size, Scan(rows, size, fields, cap))
  {
    hide FromLE, Get, Scan, Cell;
    var hits := Scan(rows, size, fields, cap);
    forall k | 0 <= k < |hits| ensures hits[k].row < |rows| && 4 * hits[k].field + 4 <= size {
      ScanExact(rows, size, fields, cap, hits[k]);
    }
  }

  /** `apply_rule` on the hits of its own scan. */
  function Applied(rows: seq<seq<byte>>, size: nat, rule: Rule): (out: seq<seq<byte>>)
    requires Shaped(rows, size) && FieldsFit(size, rule.fields)
    ensures Shaped(out, size) && |out| <= |rows|
  {
    var hits := Scan(rows, size, rule.fields, rule.cap);
    if rule.zero then
      HitsInside(rows, size, rule.fields, rule.cap);
      Zeroed(rows, size, hits)
    else
      WithoutShape(rows, size, HitRows(hits));
      Without(rows, HitRows(hits))
  }

  // ---- what zeroing does ---------------------------------------------------------------------------------

  lemma FieldsApart(row: seq<byte>, f: nat, g: nat, v: nat)
    requires 4 * f + 4 <= |row| && 4 * g + 4 <= |row| && v < WORD
    ensures Cell(Set(row, 4 * f, v), g) == if g == f then v else Cell(row, g)
  {
    hide FromLE, Get, Set;
    if g == f {
      GetOfSet(row, 4 * f, v);
    } else {
      GetOfOther(row, 4 * f, v, 4 * g);
    }
  }

  ghost predicate Struck(hits: seq<Hit>, r: nat, g: nat) {
    exists k | 0 <= k < |hits| :: hits[k].row == r && hits[k].field == g
  }

  lemma {:induction false} ZeroedCell(rows: seq<seq<byte>>, size: nat, hits: seq<Hit>, r: nat, g: nat)
    requires Shaped(rows, size) && HitsIn(rows, size, hits) && r < |rows| && 4 * g + 4 <= size
    ensures Cell(Zeroed(rows, size, hits)[r], g) == if Struck(hits, r, g) then 0 else Cell(rows[r], g)
    decreases |hits|
  {
    hide FromLE, Get, Set, Cell;
    if hits != [] {
      var n := |hits| - 1;
      var t, h := Zeroed(rows, size, hits[..n]), hits[n];
      ZeroedCell(rows, size, hits[..n], r, g);
      assert Struck(hits, r, g) <==> Struck(hits[..n], r, g) || (hits[n].row == r && hits[n].field == g);
      if h.row == r {
        FieldsApart(t[r], h.field, g, 0);
      }
    }
  }

  /** Byte k lies in one of these fields. */
  ghost predicate InFields(fields: seq<nat>, k: nat) {
    exists i | 0 <= i < |fields| :: 4 * fields[i] <= k < 4 * fields[i] + 4
  }

  lemma {:induction false} ZeroedKeeps(rows: seq<seq<byte>>, size: nat, hits: seq<Hit>, fields: seq<nat>, r: nat,
                                       k: nat)
    requires Shaped(rows, size) && HitsIn(rows, size, hits) && r < |rows| && k < size
    requires !InFields(fields, k) && forall j | 0 <= j < |hits| :: hits[j].field in fields
    ensures Zeroed(rows, size, hits)[r][k] == rows[r][k]
    decreases |hits|
  {
    hide FromLE, Set;
    if hits != [] {
      var n := |hits| - 1;
      var t, h := Zeroed(rows, size, hits[..n]), hits[n];
      ZeroedKeeps(rows, size, hits[..n], fields, r, k);
      assert h.field in fields;
      if h.row == r {
        SetKeeps(t[r], 4 * h.field, 0, k);
      }
    }
  }

  lemma StruckByScan(rows: seq<seq<byte>>, size: nat, fields: seq<nat>, cap: nat, r: nat, g: nat)
    requires Shaped(rows, size) && FieldsFit(size, fields) && r < |rows| && 4 * g + 4 <= size
    ensures Struck(Scan(rows, size, fields, cap), r, g) <==> g in fields && Cell(rows[r], g) >= cap
  {
    hide FromLE, Get, Scan, Cell;
    var hits := Scan(rows, size, fields, cap);
    if Struck(hits, r, g) {
      var k :| 0 <= k < |hits| && hits[k].row == r && hits[k].field == g;
      ScanExact(rows, size, fields, cap, hits[k]);
    }
    if g in fields && Cell(rows[r], g) >= cap {
      var h := Hit(r, g, Cell(rows[r], g));
      ScanExact(rows, size, fields, cap, h);
      var k :| 0 <= k < |hits| && hits[k] == h;
    }
  }

  /** A zero rule, cell by cell. */
  lemma ZeroRuleCell(rows: seq<seq<byte>>, size: nat, rule: Rule, r: nat, g: nat)
    requires Shaped(rows, size) && FieldsFit(size, rule.fields) && rule.zero && r < |rows| && 4 * g + 4 <= size
    ensures |Applied(rows, size, rule)| == |rows|
    ensures Cell(Applied(rows, size, rule)[r], g)
         == if g in rule.fields && Cell(rows[r], g) >= rule.cap then 0 else Cell(rows[r], g)
  {
    hide FromLE, Get, Scan, Cell, Zeroed;
    var hits := Scan(rows, size, rule.fields, rule.cap);
    HitsInside(rows, size, rule.fields, rule.cap);
    ZeroedCell(rows, size, hits, r, g);
    StruckByScan(rows, size, rule.fields, rule.cap, r, g);
  }

  lemma ZeroRuleKeeps(rows: seq<seq<byte>>, size: nat, rule: Rule, r: nat, k: nat)
    requires Shaped(rows, size) && FieldsFit(size, rule.fields) && rule.zero && r < |rows| && k < size
    requires !InFields(rule.fields, k)
    ensures |Applied(rows, size, rule)| == |rows|
    ensures Applied(rows, size, rule)[r][k] == rows[r][k]
  {
    hide FromLE, Get, Scan, Cell, Zeroed, InFields;
    var hits := Scan(rows, size, rule.fields, rule.cap);
    HitsInside(rows, size, rule.fields, rule.cap);
    forall j | 0 <= j < |hits| ensures hits[j].field in rule.fields {
      ScanExact(rows, size, rule.fields, rule.cap, hits[j]);
    }
    ZeroedKeeps(rows, size, hits, rule.fields, r, k);
  }

  /** Rows that agree on these fields and outside them are the same rows. */
  lemma SameRow(a: seq<byte>, b: seq<byte>, fields: seq<nat>)
    requires |a| == |b| && FieldsFit(|a|, fields)
    requires forall i | 0 <= i < |fields| :: Cell(a, fields[i]) == Cell(b, fields[i])
    requires forall k | 0 <= k < |a| && !InFields(fields, k) :: a[k] == b[k]
    ensures a == b
  {
    hide FromLE, ToLE, Get;
    forall k | 0 <= k < |a| ensures a[k] == b[k] {
      if InFields(fields, k) {
        var i :| 0 <= i < |fields| && 4 * fields[i] <= k < 4 * fields[i] + 4;
        SameWord(a, b, 4 * fields[i], k);
      }
    }
  }

  lemma SameWord(a: seq<byte>, b: seq<byte>, at: nat, k: nat)
    requires |a| == |b| && at + 4 <= |a| && Get(a, at) == Get(b, at) && at <= k < at + 4
    ensures a[k] == b[k]
  {
    hide FromLE, ToLE;
    ToLEOfFromLE(a[at..at + 4]);
    ToLEOfFromLE(b[at..at + 4]);
    assert a[at..at + 4][k - at] == b[at..at + 4][k - at];
  }

  // ---- after a rule, and between rules ------------------------------------------------------------------

  lemma {:induction false} WithoutRow(rows: seq<seq<byte>>, drop: set<nat>) returns (from: seq<nat>)
    ensures |from| == |Without(rows, drop)|
    ensures forall k | 0 <= k < |from| :: from[k] < |rows| && Without(rows, drop)[k] == rows[from[k]]
    ensures forall j, k | 0 <= j < k < |from| :: from[j] < from[k]
    ensures forall r | 0 <= r < |rows| :: r in from <==> r !in drop
    decreases |rows|
  {
    hide Without;
    WithoutUnfolds(rows, drop);
    if rows == [] {
      from := [];
    } else {
      var n := |rows| - 1;
      from := WithoutRow(rows[..n], drop);
      if n !in drop {
        from := from + [n];
      }
    }
  }

  lemma WithoutUnfolds(rows: seq<seq<byte>>, drop: set<nat>)
    ensures rows == [] ==> Without(rows, drop) == []
    ensures rows != [] ==> var n := |rows| - 1;
              Without(rows, drop) == Without(rows[..n], drop) + if n in drop then [] else [rows[n]]
  {}

  /** A rule has silenced its own fields afterwards, unless it writes a 0 that its own limit forbids. */
  lemma RuleSilences(rows: seq<seq<byte>>, size: nat, rule: Rule)
    requires Shaped(rows, size) && FieldsFit(size, rule.fields)
    ensures Quiet(Applied(rows, size, rule), size, rule.fields, rule.cap) <==>
            !rule.zero || rule.cap > 0 || Quiet(rows, size, rule.fields, rule.cap)
  {
    hide FromLE, Get, Scan, Cell, Zeroed, Applied, Without;
    var out := Applied(rows, size, rule);
    if rule.zero {
      ZeroRuleShape(rows, size, rule);
      forall r, i | 0 <= r < |rows| && 0 <= i < |rule.fields|
        ensures Cell(out[r], rule.fields[i])
             == if Cell(rows[r], rule.fields[i]) >= rule.cap then 0 else Cell(rows[r], rule.fields[i])
      {
        ZeroRuleCell(rows, size, rule, r, rule.fields[i]);
      }
    } else {
      DropSilences(rows, size, rule);
    }
  }

  lemma ZeroRuleShape(rows: seq<seq<byte>>, size: nat, rule: Rule)
    requires Shaped(rows, size) && FieldsFit(size, rule.fields) && rule.zero
    ensures |Applied(rows, size, rule)| == |rows|
  {
    hide FromLE, Get, Scan, Cell;
  }

  lemma DropRule(rows: seq<seq<byte>>, size: nat, rule: Rule) returns (from: seq<nat>)
    requires Shaped(rows, size) && FieldsFit(size, rule.fields) && !rule.zero
    ensures var out := Applied(rows, size, rule);
            && |from| == |out|
            && (forall k | 0 <= k < |from| :: from[k] < |rows| && out[k] == rows[from[k]])
            && (forall j, k | 0 <= j < k < |from| :: from[j] < from[k])
            && (forall r | 0 <= r < |rows| ::
                  r in from <==> forall i | 0 <= i < |rule.fields| :: Cell(rows[r], rule.fields[i]) < rule.cap)
  {
    hide FromLE, Get, Scan, Cell, Without;
    var hits := Scan(rows, size, rule.fields, rule.cap);
    from := WithoutRow(rows, HitRows(hits));
    forall r | 0 <= r < |rows|
      ensures r in HitRows(hits) <==> exists i | 0 <= i < |rule.fields| :: Cell(rows[r], rule.fields[i]) >= rule.cap
    {
      RowIsHit(rows, size, rule.fields, rule.cap, r);
    }
  }

  lemma RowIsHit(rows: seq<seq<byte>>, size: nat, fields: seq<nat>, cap: nat, r: nat)
    requires Shaped(rows, size) && FieldsFit(size, fields) && r < |rows|
    ensures r in HitRows(Scan(rows, size, fields, cap)) <==>
            exists i | 0 <= i < |fields| :: Cell(rows[r], fields[i]) >= cap
  {
    hide FromLE, Get, Scan, Cell;
    var hits := Scan(rows, size, fields, cap);
    if r in HitRows(hits) {
      var h :| h in hits && h.row == r;
      ScanExact(rows, size, fields, cap, h);
    }
    if i :| 0 <= i < |fields| && Cell(rows[r], fields[i]) >= cap {
      var h := Hit(r, fields[i], Cell(rows[r], fields[i]));
      ScanExact(rows, size, fields, cap, h);
      assert h.row in HitRows(hits);
    }
  }

  lemma DropSilences(rows: seq<seq<byte>>, size: nat, rule: Rule)
    requires Shaped(rows, size) && FieldsFit(size, rule.fields) && !rule.zero
    ensures Quiet(Applied(rows, size, rule), size, rule.fields, rule.cap)
  {
    hide FromLE, Get, Cell, Applied;
    var from := DropRule(rows, size, rule);
  }

  /** A rule does not wake another one. */
  lemma QuietStays(rows: seq<seq<byte>>, size: nat, rule: Rule, fields: seq<nat>, cap: nat)
    requires Shaped(rows, size) && FieldsFit(size, rule.fields) && FieldsFit(size, fields)
    requires Quiet(rows, size, fields, cap) && cap > 0
    ensures Quiet(Applied(rows, size, rule), size, fields, cap)
  {
    hide FromLE, Get, Scan, Cell, Applied;
    var out := Applied(rows, size, rule);
    if rule.zero {
      ZeroRuleShape(rows, size, rule);
      forall r, i | 0 <= r < |out| && 0 <= i < |fields| ensures Cell(out[r], fields[i]) < cap {
        ZeroRuleCell(rows, size, rule, r, fields[i]);
      }
    } else {
      var from := DropRule(rows, size, rule);
      forall r, i | 0 <= r < |out| && 0 <= i < |fields| ensures Cell(out[r], fields[i]) < cap {
        assert out[r] == rows[from[r]];
      }
    }
  }

  /** Any two zero rules commute, whatever fields and limits they have. */
  lemma ZeroRulesCommute(rows: seq<seq<byte>>, size: nat, a: Rule, b: Rule)
    requires Shaped(rows, size) && FieldsFit(size, a.fields) && FieldsFit(size, b.fields) && a.zero && b.zero
    ensures Applied(Applied(rows, size, a), size, b) == Applied(Applied(rows, size, b), size, a)
  {
    hide FromLE, Get, Scan, Cell, Applied, InFields;
    var ra, rb := Applied(rows, size, a), Applied(rows, size, b);
    var x, y := Applied(ra, size, b), Applied(rb, size, a);
    ZeroRuleShape(rows, size, a);
    ZeroRuleShape(rows, size, b);
    ZeroRuleShape(ra, size, b);
    ZeroRuleShape(rb, size, a);
    var all := a.fields + b.fields;
    forall r | 0 <= r < |rows| ensures x[r] == y[r] {
      forall i | 0 <= i < |all| ensures Cell(x[r], all[i]) == Cell(y[r], all[i]) {
        ZeroRuleCell(rows, size, a, r, all[i]);
        ZeroRuleCell(rows, size, b, r, all[i]);
        ZeroRuleCell(ra, size, b, r, all[i]);
        ZeroRuleCell(rb, size, a, r, all[i]);
      }
      forall k | 0 <= k < size && !InFields(all, k) ensures x[r][k] == y[r][k] {
        OutsideBoth(a.fields, b.fields, k);
        ZeroRuleKeeps(rows, size, a, r, k);
        ZeroRuleKeeps(rows, size, b, r, k);
        ZeroRuleKeeps(ra, size, b, r, k);
        ZeroRuleKeeps(rb, size, a, r, k);
      }
      SameRow(x[r], y[r], all);
    }
  }

  lemma OutsideBoth(f: seq<nat>, g: seq<nat>, k: nat)
    ensures InFields(f, k) || InFields(g, k) ==> InFields(f + g, k)
  {
    if InFields(f, k) {
      var i :| 0 <= i < |f| && 4 * f[i] <= k < 4 * f[i] + 4;
      assert (f + g)[i] == f[i];
    }
    if InFields(g, k) {
      var i :| 0 <= i < |g| && 4 * g[i] <= k < 4 * g[i] + 4;
      assert (f + g)[|f| + i] == g[i];
    }
  }

  /** With separate fields, what the second rule finds, and so what it records, does not depend on the first. */
  lemma {:induction false} ScanUnmoved(rows: seq<seq<byte>>, out: seq<seq<byte>>, size: nat, fields: seq<nat>, cap: nat)
    requires Shaped(rows, size) && Shaped(out, size) && |rows| == |out| && FieldsFit(size, fields)
    requires forall r, i | 0 <= r < |rows| && 0 <= i < |fields| :: Cell(out[r], fields[i]) == Cell(rows[r], fields[i])
    ensures Scan(out, size, fields, cap) == Scan(rows, size, fields, cap)
    decreases |rows|
  {
    hide FromLE, Get, Cell;
    if rows != [] {
      var n := |rows| - 1;
      ScanUnmoved(rows[..n], out[..n], size, fields, cap);
      RowHitsUnmoved(rows[n], out[n], n, size, fields, cap, |fields|);
    }
  }

  lemma {:induction false} RowHitsUnmoved(a: seq<byte>, b: seq<byte>, r: nat, size: nat, fields: seq<nat>, cap: nat,
                                          n: nat)
    requires n <= |fields| && |a| == |b| == size && FieldsFit(size, fields)
    requires forall i | 0 <= i < |fields| :: Cell(a, fields[i]) == Cell(b, fields[i])
    ensures RowHits(a, r, size, fields, cap, n) == RowHits(b, r, size, fields, cap, n)
  {
    hide FromLE, Get, Cell;
    if n > 0 {
      RowHitsUnmoved(a, b, r, size, fields, cap, n - 1);
    }
  }

  lemma ApartRulesScanAlike(rows: seq<seq<byte>>, size: nat, a: Rule, b: Rule)
    requires Shaped(rows, size) && FieldsFit(size, a.fields) && FieldsFit(size, b.fields) && a.zero
    requires forall i | 0 <= i < |b.fields| :: b.fields[i] !in a.fields
    ensures Scan(Applied(rows, size, a), size, b.fields, b.cap) == Scan(rows, size, b.fields, b.cap)
  {
    hide FromLE, Get, Scan, Cell, Applied;
    var out := Applied(rows, size, a);
    ZeroRuleShape(rows, size, a);
    forall r, i | 0 <= r < |rows| && 0 <= i < |b.fields|
      ensures Cell(out[r], b.fields[i]) == Cell(rows[r], b.fields[i])
    {
      ZeroRuleCell(rows, size, a, r, b.fields[i]);
    }
    ScanUnmoved(rows, out, size, b.fields, b.cap);
  }

  // ---- a run over one file ------------------------------------------------------------------------------

  ghost predicate RulesFit(size: nat, rules: seq<Rule>) {
    forall i | 0 <= i < |rules| :: FieldsFit(size, rules[i].fields)
  }

  function Entries(rows: seq<seq<byte>>, size: nat, hits: seq<Hit>): (es: seq<Entry>)
    requires Shaped(rows, size) && HitsIn(rows, size, hits) && 4 <= size
    ensures |es| == |hits|
  {
    seq(|hits|, k requires 0 <= k < |hits| => Entry(Cell(rows[hits[k].row], 0), hits[k].field, hits[k].value))
  }

  function Recorded(rows: seq<seq<byte>>, size: nat, rule: Rule): seq<Entry>
    requires Shaped(rows, size) && FieldsFit(size, rule.fields)
  {
    HitsInside(rows, size, rule.fields, rule.cap);
    Entries(rows, size, Scan(rows, size, rule.fields, rule.cap))
  }

  datatype Outcome = Outcome(rows: seq<seq<byte>>, journal: Journal)

  /** The loop of `main` over the rules of one file: a rule without hits leaves file and journal alone. */
  function Run(rows: seq<seq<byte>>, size: nat, rules: seq<Rule>, journal: Journal): (o: Outcome)
    requires Shaped(rows, size) && RulesFit(size, rules)
    ensures Shaped(o.rows, size)
    decreases |rules|
  {
    if rules == [] then Outcome(rows, journal)
    else
      var rule := rules[0];
      if Scan(rows, size, rule.fields, rule.cap) == [] then Run(rows, size, rules[1..], journal)
      else Run(Applied(rows, size, rule), size, rules[1..],
               journal[rule.name := Note(rule.zero, rule.cap, Recorded(rows, size, rule))])
  }

  ghost predicate AllQuiet(rows: seq<seq<byte>>, size: nat, rules: seq<Rule>)
    requires Shaped(rows, size) && RulesFit(size, rules)
  {
    forall i | 0 <= i < |rules| :: Quiet(rows, size, rules[i].fields, rules[i].cap)
  }

  ghost predicate Capped(rules: seq<Rule>) {
    forall i | 0 <= i < |rules| :: rules[i].cap > 0
  }

  /** What was quiet stays quiet through a run. */
  lemma {:induction false} RunKeepsQuiet(rows: seq<seq<byte>>, size: nat, rules: seq<Rule>, journal: Journal,
                                         fields: seq<nat>, cap: nat)
    requires Shaped(rows, size) && RulesFit(size, rules) && FieldsFit(size, fields)
    requires Quiet(rows, size, fields, cap) && cap > 0
    ensures Quiet(Run(rows, size, rules, journal).rows, size, fields, cap)
    decreases |rules|
  {
    hide Scan, Applied, Quiet, FieldsFit, Shaped, Recorded;
    if rules != [] {
      var rule := rules[0];
      if Scan(rows, size, rule.fields, rule.cap) == [] {
        RunKeepsQuiet(rows, size, rules[1..], journal, fields, cap);
      } else {
        QuietStays(rows, size, rule, fields, cap);
        RunKeepsQuiet(Applied(rows, size, rule), size, rules[1..],
                      journal[rule.name := Note(rule.zero, rule.cap, Recorded(rows, size, rule))], fields, cap);
      }
    }
  }

  /** After all rules have run, no rule finds anything: every later rule keeps the earlier ones silent. */
  lemma {:induction false} RunSilences(rows: seq<seq<byte>>, size: nat, rules: seq<Rule>, journal: Journal)
    requires Shaped(rows, size) && RulesFit(size, rules) && Capped(rules)
    ensures AllQuiet(Run(rows, size, rules, journal).rows, size, rules)
    decreases |rules|
  {
    hide Scan, Applied, Quiet, FieldsFit, Shaped, Recorded;
    if rules != [] {
      var rule, rest := rules[0], rules[1..];
      ScanNone(rows, size, rule.fields, rule.cap);
      var out, j := rows, journal;
      if Scan(rows, size, rule.fields, rule.cap) != [] {
        RuleSilences(rows, size, rule);
        out := Applied(rows, size, rule);
        j := journal[rule.name := Note(rule.zero, rule.cap, Recorded(rows, size, rule))];
      }
      RunSilences(out, size, rest, j);
      RunKeepsQuiet(out, size, rest, j, rule.fields, rule.cap);
      var final := Run(rows, size, rules, journal).rows;
      forall i | 0 <= i < |rules| ensures Quiet(final, size, rules[i].fields, rules[i].cap) {
        if i > 0 {
          assert rules[i] == rest[i - 1];
        }
      }
    }
  }

  lemma {:induction false} QuietRun(rows: seq<seq<byte>>, size: nat, rules: seq<Rule>, journal: Journal)
    requires Shaped(rows, size) && RulesFit(size, rules) && AllQuiet(rows, size, rules)
    ensures Run(rows, size, rules, journal) == Outcome(rows, journal)
    decreases |rules|
  {
    hide Scan, Applied, Quiet, FieldsFit, Shaped, Recorded;
    if rules != [] {
      ScanNone(rows, size, rules[0].fields, rules[0].cap);
      QuietRun(rows, size, rules[1..], journal);
    }
  }

  /** A second run changes neither the file nor the journal, whatever else the journal holds. */
  lemma SecondRunIsIdle(rows: seq<seq<byte>>, size: nat, rules: seq<Rule>, journal: Journal, later: Journal)
    requires Shaped(rows, size) && RulesFit(size, rules) && Capped(rules)
    ensures var o := Run(rows, size, rules, journal); Run(o.rows, size, rules, later) == Outcome(o.rows, later)
  {
    hide Run, AllQuiet, Capped;
    RunSilences(rows, size, rules, journal);
    QuietRun(Run(rows, size, rules, journal).rows, size, rules, later);
  }
}
