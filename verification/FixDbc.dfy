/** The table repair: unreachable rows dropped, taxi nodes renumbered, wild string offsets redirected. */
module FixDbc {
  import opened Bytes
  import opened Dbc

  const NO_ID: nat := 0xFFFF_FFFF

  // ---- rows whose id is unusable -------------------------------------------------------------

  function Kept(rows: seq<seq<byte>>, at: nat): seq<seq<byte>>
    requires forall r | 0 <= r < |rows| :: at + 4 <= |rows[r]|
    decreases |rows|
  {
    if rows == [] then []
    else
      var n := |rows| - 1;
      Kept(rows[..n], at) + if Get(rows[n], at) == NO_ID then [] else [rows[n]]
  }

  /** The first index column. */
  function IdColumn(fmt: string): (i: nat)
    ensures i <= |fmt|
    ensures i < |fmt| ==> fmt[i] == 'n'
    ensures forall j | 0 <= j < i :: fmt[j] != 'n'
  {
    if fmt == "" || fmt[0] == 'n' then 0 else 1 + IdColumn(fmt[1..])
  }

  function DropRows(rows: seq<seq<byte>>, fmt: string, size: nat): (kept: seq<seq<byte>>)
    requires Off(fmt, |fmt|) <= size && forall r | 0 <= r < |rows| :: |rows[r]| == size
    ensures |kept| <= |rows| && forall r | 0 <= r < |kept| :: |kept[r]| == size
  {
    var i := IdColumn(fmt);
    if i == |fmt| then rows
    else
      CellFits(fmt, i);
      KeptShape(rows, Off(fmt, i), size);
      Kept(rows, Off(fmt, i))
  }

  lemma CellFits(fmt: string, i: nat)
    requires i < |fmt| && Width(fmt[i]) == 4
    ensures Off(fmt, i) + 4 <= Off(fmt, |fmt|)
  {
    OffGrows(fmt, i, |fmt|);
  }

  lemma {:induction false} KeptShape(rows: seq<seq<byte>>, at: nat, size: nat)
    requires at + 4 <= size && forall r | 0 <= r < |rows| :: |rows[r]| == size
    ensures |Kept(rows, at)| <= |rows|
    ensures forall r | 0 <= r < |Kept(rows, at)| :: |Kept(rows, at)[r]| == size && Get(Kept(rows, at)[r], at) != NO_ID
    decreases |rows|
  {
    hide FromLE;
    if rows != [] {
      KeptShape(rows[..|rows| - 1], at, size);
    }
  }

  /** Survivors stand in their old order, and they are all the rows with a usable id. */
  lemma {:induction false} KeptExact(rows: seq<seq<byte>>, at: nat) returns (from: seq<nat>)
    requires forall r | 0 <= r < |rows| :: at + 4 <= |rows[r]|
    ensures |from| == |Kept(rows, at)|
    ensures forall k | 0 <= k < |from| :: from[k] < |rows| && Kept(rows, at)[k] == rows[from[k]]
    ensures forall j, k | 0 <= j < k < |from| :: from[j] < from[k]
    ensures forall r | 0 <= r < |rows| :: r in from <==> Get(rows[r], at) != NO_ID
    decreases |rows|
  {
    hide FromLE, Get, Kept;
    KeptUnfolds(rows, at);
    if rows == [] {
      from := [];
    } else {
      var n := |rows| - 1;
      from := KeptExact(rows[..n], at);
      if Get(rows[n], at) != NO_ID {
        from := from + [n];
      }
    }
  }

  lemma KeptUnfolds(rows: seq<seq<byte>>, at: nat)
    requires forall r | 0 <= r < |rows| :: at + 4 <= |rows[r]|
    ensures rows == [] ==> Kept(rows, at) == []
    ensures rows != [] ==> var n := |rows| - 1;
              Kept(rows, at) == Kept(rows[..n], at) + if Get(rows[n], at) == NO_ID then [] else [rows[n]]
  {
    hide FromLE, Get;
  }

  lemma {:induction false} KeptAll(rows: seq<seq<byte>>, at: nat)
    requires forall r | 0 <= r < |rows| :: at + 4 <= |rows[r]| && Get(rows[r], at) != NO_ID
    ensures Kept(rows, at) == rows
    decreases |rows|
  {
    hide FromLE, Get, Kept;
    KeptUnfolds(rows, at);
    if rows != [] {
      var n := |rows| - 1;
      KeptAll(rows[..n], at);
      assert rows == rows[..n] + [rows[n]];
    }
  }

  // ---- positional indices ---------------------------------------------------------------------

  ghost predicate Cells(rows: seq<seq<byte>>, a: nat, b: nat) {
    forall r | 0 <= r < |rows| :: a + 4 <= |rows[r]| && b + 4 <= |rows[r]|
  }

  /** Row q comes before row r on the path they share. */
  predicate Before(rows: seq<seq<byte>>, a: nat, b: nat, q: nat, r: nat)
    requires Cells(rows, a, b) && q < |rows| && r < |rows|
  {
    && Get(rows[q], a) == Get(rows[r], a)
    && (Get(rows[q], b) < Get(rows[r], b) || (Get(rows[q], b) == Get(rows[r], b) && q < r))
  }

  function Earlier(rows: seq<seq<byte>>, a: nat, b: nat, r: nat): set<nat>
    requires Cells(rows, a, b) && r < |rows|
  {
    set q | 0 <= q < |rows| && Before(rows, a, b, q, r)
  }

  function Path(rows: seq<seq<byte>>, a: nat, b: nat, key: nat): set<nat>
    requires Cells(rows, a, b)
  {
    set q | 0 <= q < |rows| && Get(rows[q], a) == key
  }

  /** The place of a row on its path, counted from 0. */
  function Rank(rows: seq<seq<byte>>, a: nat, b: nat, r: nat): (k: nat)
    requires Cells(rows, a, b) && r < |rows|
    ensures k < |rows|
  {
    RankBound(rows, a, b, r);
    |Earlier(rows, a, b, r)|
  }

  lemma RankBound(rows: seq<seq<byte>>, a: nat, b: nat, r: nat)
    requires Cells(rows, a, b) && r < |rows|
    ensures |Earlier(rows, a, b, r)| < |Path(rows, a, b, Get(rows[r], a))| <= |rows|
  {
    hide FromLE;
    var e, p := Earlier(rows, a, b, r), Path(rows, a, b, Get(rows[r], a));
    assert e <= p && r in p && r !in e;
    SmallerSubset(e, p);
    BelowSize(p, |rows|);
  }

  lemma SmallerSubset(s: set<nat>, t: set<nat>)
    requires s < t
    ensures |s| < |t|
  {
    assert t == s + (t - s);
  }

  lemma {:induction false} BelowSize(s: set<nat>, n: nat)
    requires forall x | x in s :: x < n
    ensures |s| <= n
  {
    if n == 0 {
      assert s == {};
    } else {
      BelowSize(s - {n - 1}, n - 1);
    }
  }

  /** Ranks grow along the path. */
  lemma RankGrows(rows: seq<seq<byte>>, a: nat, b: nat, q: nat, r: nat)
    requires Cells(rows, a, b) && q < |rows| && r < |rows| && Before(rows, a, b, q, r)
    ensures Rank(rows, a, b, q) < Rank(rows, a, b, r)
  {
    hide FromLE;
    var e, f := Earlier(rows, a, b, q), Earlier(rows, a, b, r);
    assert q in f && q !in e;
    assert e <= f;
    SmallerSubset(e, f);
  }

  lemma RankOrders(rows: seq<seq<byte>>, a: nat, b: nat, q: nat, r: nat)
    requires Cells(rows, a, b) && q < |rows| && r < |rows| && Get(rows[q], a) == Get(rows[r], a)
    ensures Rank(rows, a, b, q) < Rank(rows, a, b, r) <==> Before(rows, a, b, q, r)
    ensures Rank(rows, a, b, q) == Rank(rows, a, b, r) <==> q == r
  {
    hide FromLE, Rank;
    if q != r {
      if Before(rows, a, b, q, r) {
        RankGrows(rows, a, b, q, r);
      } else {
        RankGrows(rows, a, b, r, q);
      }
    }
  }

  function Renumbered(rows: seq<seq<byte>>, a: nat, b: nat): (out: seq<seq<byte>>)
    requires Cells(rows, a, b)
    ensures |out| == |rows| && forall r | 0 <= r < |rows| :: |out[r]| == |rows[r]|
  {
    seq(|rows|, r requires 0 <= r < |rows| => Set(rows[r], b, Rank(rows, a, b, r)))
  }

  /** Paths whose numbering is not 0, 1, 2, ... already. */
  function Gapped(rows: seq<seq<byte>>, a: nat, b: nat): set<nat>
    requires Cells(rows, a, b)
  {
    set r | 0 <= r < |rows| && Get(rows[r], b) != Rank(rows, a, b, r) :: Get(rows[r], a)
  }

  // ---- string offsets -----------------------------------------------------------------------------

  /** A cell by column and row. */
  type Cell = (nat, nat)

  /** The bad cells among the first m rows of one column. */
  function BadInColumn(rows: seq<seq<byte>>, c: nat, at: nat, block: nat, m: nat): seq<Cell>
    requires m <= |rows| && forall r | 0 <= r < |rows| :: at + 4 <= |rows[r]|
  {
    if m == 0 then []
    else BadInColumn(rows, c, at, block, m - 1) + if Get(rows[m - 1], at) >= block then [(c, m - 1)] else []
  }

  ghost predicate LaidIn(rows: seq<seq<byte>>, fmt: string) {
    forall r | 0 <= r < |rows| :: Off(fmt, |fmt|) <= |rows[r]|
  }

  /** The bad cells of the first n columns, column by column. */
  function Bad(rows: seq<seq<byte>>, fmt: string, block: nat, n: nat): seq<Cell>
    requires n <= |fmt| && LaidIn(rows, fmt)
  {
    if n == 0 then []
    else if fmt[n - 1] != 's' then Bad(rows, fmt, block, n - 1)
    else
      CellFits(fmt, n - 1);
      Bad(rows, fmt, block, n - 1) + BadInColumn(rows, n - 1, Off(fmt, n - 1), block, |rows|)
  }

  predicate IsBad(rows: seq<seq<byte>>, fmt: string, block: nat, x: Cell)
    requires LaidIn(rows, fmt)
  {
    && x.0 < |fmt| && fmt[x.0] == 's' && x.1 < |rows|
    && (CellFits(fmt, x.0); Get(rows[x.1], Off(fmt, x.0)) >= block)
  }

  lemma {:induction false} BadInColumnExact(rows: seq<seq<byte>>, c: nat, at: nat, block: nat, m: nat, x: Cell)
    requires m <= |rows| && forall r | 0 <= r < |rows| :: at + 4 <= |rows[r]|
    ensures x in BadInColumn(rows, c, at, block, m) <==> x.0 == c && x.1 < m && Get(rows[x.1], at) >= block
  {
    hide FromLE;
    if m > 0 {
      BadInColumnExact(rows, c, at, block, m - 1, x);
    }
  }

  lemma {:induction false} BadExact(rows: seq<seq<byte>>, fmt: string, block: nat, n: nat, x: Cell)
    requires n <= |fmt| && LaidIn(rows, fmt)
    ensures x in Bad(rows, fmt, block, n) <==> x.0 < n && IsBad(rows, fmt, block, x)
  {
    hide FromLE, Off;
    if n > 0 {
      BadExact(rows, fmt, block, n - 1, x);
      if fmt[n - 1] == 's' {
        CellFits(fmt, n - 1);
        BadInColumnExact(rows, n - 1, Off(fmt, n - 1), block, |rows|, x);
      }
    }
  }

  ghost predicate StringCells(rows: seq<seq<byte>>, fmt: string, cells: seq<Cell>) {
    forall k | 0 <= k < |cells| :: cells[k].0 < |fmt| && fmt[cells[k].0] == 's' && cells[k].1 < |rows|
  }

  /** Each of these cells, in turn, overwritten with v. */
  function Touched(rows: seq<seq<byte>>, fmt: string, cells: seq<Cell>, v: nat): (out: seq<seq<byte>>)
    requires LaidIn(rows, fmt) && StringCells(rows, fmt, cells)
    ensures |out| == |rows| && forall r | 0 <= r < |rows| :: |out[r]| == |rows[r]|
    decreases |cells|
  {
    if cells == [] then rows
    else
      var n := |cells| - 1;
      var t, (c, r) := Touched(rows, fmt, cells[..n], v), cells[n];
      CellFits(fmt, c);
      t[r := Set(t[r], Off(fmt, c), v)]
  }

  // ---- the repair ---------------------------------------------------------------------------------

  /** What was done: rows dropped, paths renumbered, string cells redirected. */
  datatype Repairs = Repairs(dropped: nat, paths: set<nat>, redirected: seq<Cell>)

  const NOTHING: Repairs := Repairs(0, {}, [])

  /** None: the string block has no final NUL to point at. */
  datatype Outcome = Outcome(file: File, repairs: Repairs)

  predicate Numbered(fmt: string, taxi: bool) {
    taxi && |fmt| > 2
  }

  /** A table the repair can work on: the layout fits the records, the string block is there, and the path and
      index columns are what their names say. */
  ghost predicate WellFormed(f: File, fmt: string, taxi: bool) {
    && Valid(f) && f.fields == |fmt| && Off(fmt, |fmt|) <= f.size && f.block <= |f.tail|
    && (Numbered(fmt, taxi) ==> Width(fmt[1]) == 4 && Width(fmt[2]) == 4 && fmt[1] != 's' && fmt[2] != 's')
  }

  lemma PathCells(f: File, fmt: string, rows: seq<seq<byte>>)
    requires |fmt| > 2 && Width(fmt[1]) == 4 && Width(fmt[2]) == 4 && Off(fmt, |fmt|) <= f.size
    requires forall r | 0 <= r < |rows| :: |rows[r]| == f.size
    ensures Cells(rows, Off(fmt, 1), Off(fmt, 2)) && Off(fmt, 1) + 4 <= Off(fmt, 2)
  {
    CellFits(fmt, 1);
    CellFits(fmt, 2);
    OffGrows(fmt, 1, 2);
  }

  function Renumber(f: File, fmt: string, taxi: bool, rows: seq<seq<byte>>): (out: seq<seq<byte>>)
    requires WellFormed(f, fmt, taxi) && forall r | 0 <= r < |rows| :: |rows[r]| == f.size
    ensures |out| == |rows| && forall r | 0 <= r < |out| :: |out[r]| == f.size
  {
    if Numbered(fmt, taxi) then
      PathCells(f, fmt, rows);
      Renumbered(rows, Off(fmt, 1), Off(fmt, 2))
    else rows
  }

  function GappedPaths(f: File, fmt: string, taxi: bool, rows: seq<seq<byte>>): set<nat>
    requires WellFormed(f, fmt, taxi) && forall r | 0 <= r < |rows| :: |rows[r]| == f.size
  {
    if Numbered(fmt, taxi) then
      PathCells(f, fmt, rows);
      Gapped(rows, Off(fmt, 1), Off(fmt, 2))
    else {}
  }

  predicate SafeEnd(f: File)
    requires f.block <= |f.tail|
  {
    f.block >= 1 && f.tail[f.block - 1] == 0
  }

  /** `repair`, on a table whose shape the core would load. */
  function Repair(f: File, fmt: string, taxi: bool): Option<Outcome>
    requires WellFormed(f, fmt, taxi)
  {
    if f.rows == [] then Some(Outcome(f, NOTHING))
    else
      var kept := DropRows(f.rows, fmt, f.size);
      var rows := Renumber(f, fmt, taxi, kept);
      var bad := Bad(rows, fmt, f.block, |fmt|);
      if bad != [] && !SafeEnd(f) then None
      else
        BadAreStrings(rows, fmt, f.block);
        Some(Outcome(f.(rows := if bad == [] then rows else Touched(rows, fmt, bad, f.block - 1)),
                     Repairs(|f.rows| - |kept|, GappedPaths(f, fmt, taxi, kept), bad)))
  }

  lemma BadAreStrings(rows: seq<seq<byte>>, fmt: string, block: nat)
    requires LaidIn(rows, fmt)
    ensures StringCells(rows, fmt, Bad(rows, fmt, block, |fmt|))
  {
    hide FromLE, Off, Bad;
    var bad := Bad(rows, fmt, block, |fmt|);
    forall k | 0 <= k < |bad| ensures bad[k].0 < |fmt| && fmt[bad[k].0] == 's' && bad[k].1 < |rows| {
      BadExact(rows, fmt, block, |fmt|, bad[k]);
    }
  }

  // ---- what overwriting does ------------------------------------------------------------------------

  lemma {:induction false} TouchedGet(rows: seq<seq<byte>>, fmt: string, cells: seq<Cell>, v: nat, c: nat, r: nat)
    requires LaidIn(rows, fmt) && StringCells(rows, fmt, cells) && v < WORD
    requires c < |fmt| && Width(fmt[c]) == 4 && r < |rows|
    ensures Off(fmt, c) + 4 <= |rows[r]|
    ensures Get(Touched(rows, fmt, cells, v)[r], Off(fmt, c))
         == if (c, r) in cells then v else Get(rows[r], Off(fmt, c))
    decreases |cells|
  {
    hide FromLE, ToLE, Get, Set, Off;
    CellFits(fmt, c);
    if cells != [] {
      var n := |cells| - 1;
      TouchedGet(rows, fmt, cells[..n], v, c, r);
      var t, x := Touched(rows, fmt, cells[..n], v), cells[n];
      CellFits(fmt, x.0);
      if x.1 == r {
        if x.0 == c {
          GetOfSet(t[r], Off(fmt, c), v);
        } else {
          CellsApart(fmt, c, x.0);
          GetOfOther(t[r], Off(fmt, x.0), v, Off(fmt, c));
        }
      }
      assert cells == cells[..n] + [x];
    }
  }

  lemma CellsApart(fmt: string, c: nat, d: nat)
    requires c < |fmt| && d < |fmt| && c != d && Width(fmt[c]) == 4 && Width(fmt[d]) == 4
    ensures Off(fmt, c) + 4 <= Off(fmt, d) || Off(fmt, d) + 4 <= Off(fmt, c)
  {
    if c < d {
      OffGrows(fmt, c, d);
    } else {
      OffGrows(fmt, d, c);
    }
  }

  /** Byte k of a row lies in one of these cells. */
  ghost predicate Inside(fmt: string, cells: seq<Cell>, r: nat, k: nat) {
    exists c | 0 <= c < |fmt| :: (c, r) in cells && Off(fmt, c) <= k < Off(fmt, c) + 4
  }

  lemma {:induction false} TouchedKeeps(rows: seq<seq<byte>>, fmt: string, cells: seq<Cell>, v: nat, r: nat, k: nat)
    requires LaidIn(rows, fmt) && StringCells(rows, fmt, cells)
    requires r < |rows| && k < |rows[r]| && !Inside(fmt, cells, r, k)
    ensures Touched(rows, fmt, cells, v)[r][k] == rows[r][k]
    decreases |cells|
  {
    hide FromLE, ToLE, Set, Off;
    if cells != [] {
      var n := |cells| - 1;
      var t, x := Touched(rows, fmt, cells[..n], v), cells[n];
      assert cells == cells[..n] + [x];
      TouchedKeeps(rows, fmt, cells[..n], v, r, k);
      CellFits(fmt, x.0);
      if x.1 == r {
        assert (x.0, r) in cells;
        SetKeeps(t[r], Off(fmt, x.0), v, k);
      }
    }
  }

  // ---- laws ---------------------------------------------------------------------------------------

  /** The stages of a successful repair. */
  ghost predicate Stages(f: File, fmt: string, taxi: bool, kept: seq<seq<byte>>, rows: seq<seq<byte>>,
                         bad: seq<Cell>, g: File) {
    && WellFormed(f, fmt, taxi)
    && kept == DropRows(f.rows, fmt, f.size)
    && rows == Renumber(f, fmt, taxi, kept)
    && LaidIn(rows, fmt) && bad == Bad(rows, fmt, f.block, |fmt|) && StringCells(rows, fmt, bad)
    && (bad != [] ==> SafeEnd(f))
    && g == f.(rows := if bad == [] then rows else Touched(rows, fmt, bad, f.block - 1))
  }

  lemma StagesOf(f: File, fmt: string, taxi: bool)
    returns (kept: seq<seq<byte>>, rows: seq<seq<byte>>, bad: seq<Cell>, g: File)
    requires WellFormed(f, fmt, taxi) && Repair(f, fmt, taxi).Some?
    ensures g == Repair(f, fmt, taxi).value.file && Stages(f, fmt, taxi, kept, rows, bad, g)
    ensures g.fields == f.fields && g.size == f.size && g.block == f.block && g.tail == f.tail
    ensures |g.rows| == |rows| == |kept| <= |f.rows| && Valid(g) && WellFormed(g, fmt, taxi)
  {
    hide FromLE, Off, Bad, Touched, Renumbered, Gapped, Kept;
    kept := DropRows(f.rows, fmt, f.size);
    rows := Renumber(f, fmt, taxi, kept);
    BadAreStrings(rows, fmt, f.block);
    bad := Bad(rows, fmt, f.block, |fmt|);
    if f.rows == [] {
      EmptyStages(f, fmt, taxi, kept, rows);
    }
    g := f.(rows := if bad == [] then rows else Touched(rows, fmt, bad, f.block - 1));
  }

  lemma EmptyStages(f: File, fmt: string, taxi: bool, kept: seq<seq<byte>>, rows: seq<seq<byte>>)
    requires WellFormed(f, fmt, taxi) && f.rows == []
    requires kept == DropRows([], fmt, f.size) && rows == Renumber(f, fmt, taxi, kept)
    ensures kept == rows == [] && Bad(rows, fmt, f.block, |fmt|) == []
  {
    hide FromLE, Off;
    NoBad(fmt, f.block, |fmt|);
  }

  lemma {:induction false} NoBad(fmt: string, block: nat, n: nat)
    requires n <= |fmt|
    ensures Bad([], fmt, block, n) == []
  {
    if n > 0 {
      NoBad(fmt, block, n - 1);
    }
  }

  /** After the repair every string cell is inside the block. */
  lemma RepairedStrings(f: File, fmt: string, taxi: bool, kept: seq<seq<byte>>, rows: seq<seq<byte>>, bad: seq<Cell>,
                        g: File)
    requires Stages(f, fmt, taxi, kept, rows, bad, g)
    ensures StringsInside(g.rows, fmt, f.block)
  {
    hide FromLE, Off, Bad, Touched, Renumber, Get, DropRows;
    forall i, r | 0 <= i < |fmt| && fmt[i] == 's' && 0 <= r < |g.rows|
      ensures Off(fmt, i) + 4 <= |g.rows[r]| && Get(g.rows[r], Off(fmt, i)) < f.block
    {
      CellFits(fmt, i);
      BadExact(rows, fmt, f.block, |fmt|, (i, r));
      if bad != [] {
        TouchedGet(rows, fmt, bad, f.block - 1, i, r);
      }
    }
  }

  /** No row is left whose id the core cannot index. */
  ghost predicate IdsUsable(rows: seq<seq<byte>>, fmt: string) {
    var i := IdColumn(fmt);
    i < |fmt| ==> forall r | 0 <= r < |rows| :: Off(fmt, i) + 4 <= |rows[r]| && Get(rows[r], Off(fmt, i)) != NO_ID
  }

  /** Every row's index is its place on its path. */
  ghost predicate Placed(rows: seq<seq<byte>>, fmt: string, taxi: bool) {
    Numbered(fmt, taxi) ==>
      && Cells(rows, Off(fmt, 1), Off(fmt, 2))
      && forall r | 0 <= r < |rows| :: Get(rows[r], Off(fmt, 2)) == Rank(rows, Off(fmt, 1), Off(fmt, 2), r)
  }

  lemma RenumberedCell(rows: seq<seq<byte>>, a: nat, b: nat, r: nat, at: nat)
    requires Cells(rows, a, b) && r < |rows| < WORD && at + 4 <= |rows[r]| && (at == b || at + 4 <= b || b + 4 <= at)
    ensures Get(Renumbered(rows, a, b)[r], at) == if at == b then Rank(rows, a, b, r) else Get(rows[r], at)
  {
    hide FromLE, ToLE, Set, Rank, Get;
    if at == b {
      GetOfSet(rows[r], b, Rank(rows, a, b, r));
    } else {
      GetOfOther(rows[r], b, Rank(rows, a, b, r), at);
    }
  }

  /** A four-byte column through all stages: only strings and, on a numbered table, the index column change. */
  lemma FinalCell(f: File, fmt: string, taxi: bool, kept: seq<seq<byte>>, rows: seq<seq<byte>>, bad: seq<Cell>, g: File,
                  c: nat, r: nat)
    requires Stages(f, fmt, taxi, kept, rows, bad, g) && r < |kept|
    requires c < |fmt| && Width(fmt[c]) == 4 && fmt[c] != 's'
    ensures Off(fmt, c) + 4 <= f.size
    ensures Numbered(fmt, taxi) ==> Cells(kept, Off(fmt, 1), Off(fmt, 2)) && Off(fmt, 1) + 4 <= Off(fmt, 2)
    ensures Get(g.rows[r], Off(fmt, c))
         == if Numbered(fmt, taxi) && c == 2 then Rank(kept, Off(fmt, 1), Off(fmt, 2), r) else Get(kept[r], Off(fmt, c))
  {
    hide FromLE, Off, Bad, Touched, Get, DropRows, Renumbered, Rank;
    CellFits(fmt, c);
    BadExact(rows, fmt, f.block, |fmt|, (c, r));
    if bad != [] {
      TouchedGet(rows, fmt, bad, f.block - 1, c, r);
    }
    if Numbered(fmt, taxi) {
      PathCells(f, fmt, kept);
      if c != 2 {
        CellsApart(fmt, c, 2);
      }
      RenumberedCell(kept, Off(fmt, 1), Off(fmt, 2), r, Off(fmt, c));
    }
  }

  lemma RepairedIds(f: File, fmt: string, taxi: bool, kept: seq<seq<byte>>, rows: seq<seq<byte>>, bad: seq<Cell>,
                    g: File)
    requires Stages(f, fmt, taxi, kept, rows, bad, g)
    ensures IdsUsable(g.rows, fmt)
  {
    hide FromLE, Off, Get, Bad, Touched, Renumber, Kept, Rank;
    var i := IdColumn(fmt);
    if i < |fmt| {
      CellFits(fmt, i);
      KeptShape(f.rows, Off(fmt, i), f.size);
      forall r | 0 <= r < |g.rows| ensures Off(fmt, i) + 4 <= |g.rows[r]| && Get(g.rows[r], Off(fmt, i)) != NO_ID {
        FinalCell(f, fmt, taxi, kept, rows, bad, g, i, r);
      }
    }
  }

  /** Rows with the same paths, ranked by their ranks, keep them. */
  lemma RankOfRanks(rows: seq<seq<byte>>, out: seq<seq<byte>>, a: nat, b: nat, r: nat)
    requires Cells(rows, a, b) && Cells(out, a, b) && |out| == |rows| && r < |rows|
    requires forall q | 0 <= q < |rows| :: Get(out[q], a) == Get(rows[q], a) && Get(out[q], b) == Rank(rows, a, b, q)
    ensures Earlier(out, a, b, r) == Earlier(rows, a, b, r)
    ensures Rank(out, a, b, r) == Rank(rows, a, b, r)
  {
    hide FromLE, Get;
    forall q | 0 <= q < |rows| ensures Before(out, a, b, q, r) <==> Before(rows, a, b, q, r) {
      if Get(rows[q], a) == Get(rows[r], a) {
        RankOrders(rows, a, b, q, r);
      }
    }
  }

  /** The second table's indices are the ranks of the first, on the same paths. */
  ghost predicate SameRanks(rows: seq<seq<byte>>, out: seq<seq<byte>>, a: nat, b: nat)
    requires Cells(rows, a, b)
  {
    && Cells(out, a, b) && |out| == |rows|
    && (forall r | 0 <= r < |rows| :: Get(out[r], a) == Get(rows[r], a) && Get(out[r], b) == Rank(rows, a, b, r))
  }

  lemma RepairedPlaces(f: File, fmt: string, taxi: bool, kept: seq<seq<byte>>, rows: seq<seq<byte>>, bad: seq<Cell>,
                       g: File)
    requires Stages(f, fmt, taxi, kept, rows, bad, g)
    ensures Placed(g.rows, fmt, taxi)
    ensures Numbered(fmt, taxi) ==> Cells(kept, Off(fmt, 1), Off(fmt, 2)) && |kept| == |g.rows|
    ensures Numbered(fmt, taxi) ==> SameRanks(kept, g.rows, Off(fmt, 1), Off(fmt, 2))
  {
    hide FromLE, Off, Get, Bad, Touched, Renumber, DropRows, Rank;
    if Numbered(fmt, taxi) {
      var a, b := Off(fmt, 1), Off(fmt, 2);
      SameShape(f, fmt, taxi, kept, rows, bad, g);
      PathCells(f, fmt, kept);
      PathCells(f, fmt, g.rows);
      forall q | 0 <= q < |kept|
        ensures Get(g.rows[q], a) == Get(kept[q], a) && Get(g.rows[q], b) == Rank(kept, a, b, q)
      {
        FinalCell(f, fmt, taxi, kept, rows, bad, g, 1, q);
        FinalCell(f, fmt, taxi, kept, rows, bad, g, 2, q);
      }
      forall r | 0 <= r < |kept| ensures Rank(g.rows, a, b, r) == Rank(kept, a, b, r) {
        RankOfRanks(kept, g.rows, a, b, r);
      }
    }
  }

  lemma SameShape(f: File, fmt: string, taxi: bool, kept: seq<seq<byte>>, rows: seq<seq<byte>>, bad: seq<Cell>, g: File)
    requires Stages(f, fmt, taxi, kept, rows, bad, g)
    ensures |kept| == |rows| == |g.rows|
    ensures forall r | 0 <= r < |kept| :: |kept[r]| == f.size && |g.rows[r]| == f.size
  {
    hide FromLE, Off, Get, Bad, Renumbered, Kept;
  }

  // ---- main results -----------------------------------------------------------------------------

  /** What the core needs of a table: nothing for the repair to do. */
  ghost predicate Healthy(f: File, fmt: string, taxi: bool) {
    StringsInside(f.rows, fmt, f.block) && IdsUsable(f.rows, fmt) && Placed(f.rows, fmt, taxi)
  }

  /** The repaired table is healthy. */
  lemma RepairHeals(f: File, fmt: string, taxi: bool)
    requires WellFormed(f, fmt, taxi) && Repair(f, fmt, taxi).Some?
    ensures var g := Repair(f, fmt, taxi).value.file; WellFormed(g, fmt, taxi) && Healthy(g, fmt, taxi)
  {
    hide Repair, Stages, StringsInside, IdsUsable, Placed, WellFormed;
    var kept, rows, bad, g := StagesOf(f, fmt, taxi);
    RepairedStrings(f, fmt, taxi, kept, rows, bad, g);
    RepairedIds(f, fmt, taxi, kept, rows, bad, g);
    RepairedPlaces(f, fmt, taxi, kept, rows, bad, g);
  }

  lemma KeptHealthy(f: File, fmt: string)
    requires Valid(f) && Off(fmt, |fmt|) <= f.size && IdsUsable(f.rows, fmt)
    ensures DropRows(f.rows, fmt, f.size) == f.rows
  {
    hide FromLE, Off, Get, Kept;
    var i := IdColumn(fmt);
    if i < |fmt| {
      CellFits(fmt, i);
      KeptAll(f.rows, Off(fmt, i));
    }
  }

  lemma PlacedStay(f: File, fmt: string, taxi: bool)
    requires WellFormed(f, fmt, taxi) && Placed(f.rows, fmt, taxi)
    ensures Renumber(f, fmt, taxi, f.rows) == f.rows && GappedPaths(f, fmt, taxi, f.rows) == {}
  {
    hide FromLE, ToLE, Off, Get, Set, Rank;
    if Numbered(fmt, taxi) {
      var a, b := Off(fmt, 1), Off(fmt, 2);
      PathCells(f, fmt, f.rows);
      forall r | 0 <= r < |f.rows| ensures Set(f.rows[r], b, Rank(f.rows, a, b, r)) == f.rows[r] {
        SetOfGet(f.rows[r], b);
      }
    }
  }

  lemma NoneBad(rows: seq<seq<byte>>, fmt: string, block: nat)
    requires LaidIn(rows, fmt)
    ensures Bad(rows, fmt, block, |fmt|) == [] <==> StringsInside(rows, fmt, block)
  {
    hide FromLE, Off, Get, Bad;
    var bad := Bad(rows, fmt, block, |fmt|);
    if bad != [] {
      BadExact(rows, fmt, block, |fmt|, bad[0]);
    } else {
      forall i, r | 0 <= i < |fmt| && fmt[i] == 's' && 0 <= r < |rows|
        ensures Off(fmt, i) + 4 <= |rows[r]| && Get(rows[r], Off(fmt, i)) < block
      {
        CellFits(fmt, i);
        BadExact(rows, fmt, block, |fmt|, (i, r));
      }
    }
  }

  /** A healthy table is left alone, and nothing is reported. */
  lemma HealthyUntouched(f: File, fmt: string, taxi: bool)
    requires WellFormed(f, fmt, taxi) && Healthy(f, fmt, taxi)
    ensures Repair(f, fmt, taxi) == Some(Outcome(f, NOTHING))
  {
    hide FromLE, Off, Bad, Touched, Renumber, DropRows, GappedPaths, StringsInside, IdsUsable, Placed;
    if f.rows != [] {
      KeptHealthy(f, fmt);
      PlacedStay(f, fmt, taxi);
      NoneBad(f.rows, fmt, f.block);
    }
  }

  /** A second repair does nothing. */
  lemma RepairTwice(f: File, fmt: string, taxi: bool)
    requires WellFormed(f, fmt, taxi) && Repair(f, fmt, taxi).Some?
    ensures var g := Repair(f, fmt, taxi).value.file;
            WellFormed(g, fmt, taxi) && Repair(g, fmt, taxi) == Some(Outcome(g, NOTHING))
  {
    hide Repair, Healthy, WellFormed;
    RepairHeals(f, fmt, taxi);
    HealthyUntouched(Repair(f, fmt, taxi).value.file, fmt, taxi);
  }

  /** The independent checker has no complaint about a repaired table. */
  lemma RepairPassesCheck(f: File, fmt: string, taxi: bool)
    requires WellFormed(f, fmt, taxi) && Repair(f, fmt, taxi).Some?
    ensures var report := Check(Written(Repair(f, fmt, taxi).value.file), fmt);
            report.Some? && report.value.errors == []
  {
    hide Repair, StringsInside, IdsUsable, Placed, Check, Written, FromLE;
    RepairHeals(f, fmt, taxi);
    var g := Repair(f, fmt, taxi).value.file;
    LaidOutFits(fmt, g.size);
    CheckIsExact(g, fmt);
  }

  lemma LaidOutFits(fmt: string, size: nat)
    requires Off(fmt, |fmt|) <= size
    ensures !Overruns(fmt, size)
  {
    hide Off;
    forall i | 0 <= i < |fmt| && fmt[i] == 's' ensures Off(fmt, i) + 4 <= size {
      CellFits(fmt, i);
    }
    NoOverrun(fmt, size);
  }

  /** The repair gives up exactly when a surviving row's string is outside a block without a final NUL. */
  lemma RepairFailsExactly(f: File, fmt: string, taxi: bool)
    requires WellFormed(f, fmt, taxi)
    ensures Repair(f, fmt, taxi).None? <==>
            !SafeEnd(f) && !StringsInside(DropRows(f.rows, fmt, f.size), fmt, f.block)
  {
    hide FromLE, Off, Bad, Touched, Renumber, DropRows, GappedPaths, StringsInside;
    var kept := DropRows(f.rows, fmt, f.size);
    var rows := Renumber(f, fmt, taxi, kept);
    NoneBad(rows, fmt, f.block);
    StringsSurvive(f, fmt, taxi, kept);
    if f.rows == [] {
      EmptyStages(f, fmt, taxi, kept, rows);
    }
  }

  lemma StringsSurvive(f: File, fmt: string, taxi: bool, kept: seq<seq<byte>>)
    requires WellFormed(f, fmt, taxi) && forall r | 0 <= r < |kept| :: |kept[r]| == f.size
    requires |kept| < WORD
    ensures StringsInside(Renumber(f, fmt, taxi, kept), fmt, f.block) <==> StringsInside(kept, fmt, f.block)
  {
    hide FromLE, Off, Get, Renumber;
    forall i, r | 0 <= i < |fmt| && fmt[i] == 's' && 0 <= r < |kept|
      ensures Off(fmt, i) + 4 <= |kept[r]|
      ensures Get(Renumber(f, fmt, taxi, kept)[r], Off(fmt, i)) == Get(kept[r], Off(fmt, i))
    {
      StringStays(f, fmt, taxi, kept, i, r);
    }
  }

  /** Renumbering moves no string. */
  lemma StringStays(f: File, fmt: string, taxi: bool, kept: seq<seq<byte>>, c: nat, r: nat)
    requires WellFormed(f, fmt, taxi) && forall q | 0 <= q < |kept| :: |kept[q]| == f.size
    requires |kept| < WORD && c < |fmt| && fmt[c] == 's' && r < |kept|
    ensures Off(fmt, c) + 4 <= f.size
    ensures Get(Renumber(f, fmt, taxi, kept)[r], Off(fmt, c)) == Get(kept[r], Off(fmt, c))
  {
    hide FromLE, Off, Get, Renumbered, Rank;
    CellFits(fmt, c);
    if Numbered(fmt, taxi) {
      PathCells(f, fmt, kept);
      CellsApart(fmt, c, 2);
      RenumberedCell(kept, Off(fmt, 1), Off(fmt, 2), r, Off(fmt, c));
    }
  }

  /** A row the core can index. */
  ghost predicate Usable(row: seq<byte>, fmt: string) {
    var i := IdColumn(fmt);
    i < |fmt| ==> Off(fmt, i) + 4 <= |row| && Get(row, Off(fmt, i)) != NO_ID
  }

  /** A cell holding this string offset. */
  ghost predicate PointsAt(row: seq<byte>, fmt: string, c: nat, offset: nat) {
    c < |fmt| && fmt[c] == 's' && Off(fmt, c) + 4 <= |row| && Get(row, Off(fmt, c)) == offset
  }

  ghost predicate Wild(row: seq<byte>, fmt: string, c: nat, block: nat) {
    exists v | v >= block :: PointsAt(row, fmt, c, v)
  }

  /** The survivors are exactly the rows with a usable id, in their old order; the redirected cells are exactly
      their string cells outside the block, and point at its final NUL afterwards; every byte outside these and
      the index column, the string block and the rest of the header do not change. */
  lemma RepairKeepsTheRest(f: File, fmt: string, taxi: bool) returns (from: seq<nat>)
    requires WellFormed(f, fmt, taxi) && Repair(f, fmt, taxi).Some?
    ensures var o := Repair(f, fmt, taxi).value;
            && o.file == f.(rows := o.file.rows) && |from| == |o.file.rows|
            && o.repairs.dropped == |f.rows| - |from|
            && (forall j, k | 0 <= j < k < |from| :: from[j] < from[k])
            && (forall r | 0 <= r < |from| :: from[r] < |f.rows| && |o.file.rows[r]| == |f.rows[from[r]]|)
            && (forall r | 0 <= r < |f.rows| :: r in from <==> Usable(f.rows[r], fmt))
            && (forall c: nat, r: nat :: (c, r) in o.repairs.redirected
                  <==> r < |from| && Wild(f.rows[from[r]], fmt, c, f.block))
            && (forall c: nat, r: nat ::
                  (c, r) in o.repairs.redirected ==> PointsAt(o.file.rows[r], fmt, c, f.block - 1))
            && (forall r, k | 0 <= r < |from| && 0 <= k < f.size ::
                  Free(fmt, taxi, o.repairs.redirected, r, k) ==> o.file.rows[r][k] == f.rows[from[r]][k])
  {
    hide FromLE, Off, Bad, Touched, Renumber, DropRows, GappedPaths, Free, WellFormed, IdColumn, Usable, Wild, PointsAt;
    var kept, rows, bad, g := StagesOf(f, fmt, taxi);
    SameShape(f, fmt, taxi, kept, rows, bad, g);
    from := Survivors(f, fmt, taxi);
    if f.rows == [] {
      NoBad(fmt, f.block, |fmt|);
    }
    var o := Repair(f, fmt, taxi).value;
    assert o.repairs.redirected == bad && o.repairs.dropped == |f.rows| - |kept|;
    forall c: nat, r: nat
      ensures (c, r) in bad <==> r < |kept| && Wild(kept[r], fmt, c, f.block)
      ensures (c, r) in bad ==> PointsAt(g.rows[r], fmt, c, f.block - 1)
    {
      RedirectedCell(f, fmt, taxi, kept, rows, bad, g, c, r);
    }
    forall r, k | 0 <= r < |from| && 0 <= k < f.size && Free(fmt, taxi, bad, r, k)
      ensures g.rows[r][k] == f.rows[from[r]][k]
    {
      FreeByte(f, fmt, taxi, kept, rows, bad, g, r, k);
    }
  }

  lemma RedirectedCell(f: File, fmt: string, taxi: bool, kept: seq<seq<byte>>, rows: seq<seq<byte>>, bad: seq<Cell>,
                       g: File, c: nat, r: nat)
    requires Stages(f, fmt, taxi, kept, rows, bad, g)
    ensures (c, r) in bad <==> r < |kept| && Wild(kept[r], fmt, c, f.block)
    ensures (c, r) in bad ==> |g.rows| == |kept| > r && PointsAt(g.rows[r], fmt, c, f.block - 1)
  {
    hide FromLE, Off, Get, Bad, Touched, Renumber, DropRows;
    SameShape(f, fmt, taxi, kept, rows, bad, g);
    BadExact(rows, fmt, f.block, |fmt|, (c, r));
    if c < |fmt| && fmt[c] == 's' && r < |kept| {
      StringStays(f, fmt, taxi, kept, c, r);
      var v := Get(kept[r], Off(fmt, c));
      assert PointsAt(kept[r], fmt, c, v);
      if (c, r) in bad {
        TouchedGet(rows, fmt, bad, f.block - 1, c, r);
      }
    }
  }

  /** A byte no repair is allowed to change. */
  ghost predicate Free(fmt: string, taxi: bool, redirected: seq<Cell>, r: nat, k: nat) {
    && !Inside(fmt, redirected, r, k)
    && !(Numbered(fmt, taxi) && Off(fmt, 2) <= k < Off(fmt, 2) + 4)
  }

  lemma Survivors(f: File, fmt: string, taxi: bool) returns (from: seq<nat>)
    requires WellFormed(f, fmt, taxi)
    ensures var kept := DropRows(f.rows, fmt, f.size);
            && |from| == |kept|
            && (forall j, k | 0 <= j < k < |from| :: from[j] < from[k])
            && (forall r | 0 <= r < |from| :: from[r] < |f.rows| && kept[r] == f.rows[from[r]])
    ensures forall r | 0 <= r < |f.rows| :: r in from <==> Usable(f.rows[r], fmt)
  {
    hide FromLE, Off, Get, Kept;
    var i := IdColumn(fmt);
    if i < |fmt| {
      CellFits(fmt, i);
      from := KeptExact(f.rows, Off(fmt, i));
    } else {
      from := seq(|f.rows|, r => r);
      assert forall r | 0 <= r < |f.rows| :: from[r] == r;
    }
  }

  lemma FreeByte(f: File, fmt: string, taxi: bool, kept: seq<seq<byte>>, rows: seq<seq<byte>>, bad: seq<Cell>, g: File,
                 r: nat, k: nat)
    requires Stages(f, fmt, taxi, kept, rows, bad, g) && r < |kept| && k < f.size && Free(fmt, taxi, bad, r, k)
    ensures g.rows[r][k] == kept[r][k]
  {
    hide FromLE, Off, Bad, Touched, DropRows, Inside, Set, Rank;
    if bad != [] {
      TouchedKeeps(rows, fmt, bad, f.block - 1, r, k);
    }
    if Numbered(fmt, taxi) {
      PathCells(f, fmt, kept);
      SetKeeps(kept[r], Off(fmt, 2), Rank(kept, Off(fmt, 1), Off(fmt, 2), r), k);
    }
  }

  lemma {:induction false} ImageSize(rows: seq<seq<byte>>, b: nat, s: set<nat>)
    requires forall x, y | x in s && y in s && x != y :: CellOr0(rows, b, x) != CellOr0(rows, b, y)
    ensures |set x | x in s :: CellOr0(rows, b, x)| == |s|
    decreases s
  {
    hide CellOr0;
    if s != {} {
      var x :| x in s;
      var image, rest := set y | y in s :: CellOr0(rows, b, y), set y | y in s - {x} :: CellOr0(rows, b, y);
      ImageSize(rows, b, s - {x});
      assert image == rest + {CellOr0(rows, b, x)};
      assert CellOr0(rows, b, x) !in rest;
    }
  }

  /** {0, ..., n-1}. */
  function UpTo(n: nat): (s: set<nat>)
    ensures forall k: nat :: k in s <==> k < n
  {
    if n == 0 then {} else UpTo(n - 1) + {n - 1}
  }

  lemma {:induction false} UpToSize(n: nat)
    ensures |UpTo(n)| == n
  {
    if n > 0 {
      UpToSize(n - 1);
    }
  }

  lemma FullSubset(s: set<nat>, t: set<nat>)
    requires s <= t && |s| == |t|
    ensures s == t
  {
    if s != t {
      SmallerSubset(s, t);
    }
  }

  /** The indices that occur on a path. */
  function Indices(rows: seq<seq<byte>>, a: nat, b: nat, key: nat): set<nat>
    requires Cells(rows, a, b)
  {
    set r | r in Path(rows, a, b, key) :: CellOr0(rows, b, r)
  }

  function CellOr0(rows: seq<seq<byte>>, b: nat, r: nat): nat {
    if r < |rows| && b + 4 <= |rows[r]| then Get(rows[r], b) else 0
  }

  lemma IndicesAreInitial(rows: seq<seq<byte>>, a: nat, b: nat, key: nat)
    requires Cells(rows, a, b) && forall r | 0 <= r < |rows| :: Get(rows[r], b) == Rank(rows, a, b, r)
    ensures Indices(rows, a, b, key) == UpTo(|Path(rows, a, b, key)|)
  {
    hide FromLE, Get;
    var path := Path(rows, a, b, key);
    forall x, y | x in path && y in path && x != y ensures CellOr0(rows, b, x) != CellOr0(rows, b, y) {
      RankOrders(rows, a, b, x, y);
    }
    forall x | x in path ensures CellOr0(rows, b, x) < |path| {
      RankBound(rows, a, b, x);
    }
    ImageSize(rows, b, path);
    UpToSize(|path|);
    FullSubset(Indices(rows, a, b, key), UpTo(|path|));
  }

  /** On a taxi table, every path of the repaired table is numbered exactly 0, ..., n-1, and two survivors of one
      path are numbered in the order they had. */
  lemma RepairedPaths(f: File, fmt: string, key: nat, q: nat, r: nat)
    requires WellFormed(f, fmt, true) && |fmt| > 2 && Repair(f, fmt, true).Some?
    ensures var a, b := Off(fmt, 1), Off(fmt, 2);
            var kept, out := DropRows(f.rows, fmt, f.size), Repair(f, fmt, true).value.file.rows;
            && Cells(kept, a, b) && Cells(out, a, b) && |out| == |kept|
            && Indices(out, a, b, key) == UpTo(|Path(out, a, b, key)|)
            && Path(out, a, b, key) == Path(kept, a, b, key)
            && (q < |kept| && r < |kept| && Get(kept[q], a) == Get(kept[r], a) ==>
                  (Get(out[q], b) < Get(out[r], b) <==> Before(kept, a, b, q, r)))
  {
    hide FromLE, Off, Get, Repair, Stages, DropRows, Rank;
    var a, b := Off(fmt, 1), Off(fmt, 2);
    var kept, rows, bad, g := StagesOf(f, fmt, true);
    StagesKept(f, fmt, true, kept, rows, bad, g);
    RepairedPlaces(f, fmt, true, kept, rows, bad, g);
    IndicesAreInitial(g.rows, a, b, key);
    if q < |kept| && r < |kept| && Get(kept[q], a) == Get(kept[r], a) {
      RankOrders(kept, a, b, q, r);
    }
  }

  lemma StagesKept(f: File, fmt: string, taxi: bool, kept: seq<seq<byte>>, rows: seq<seq<byte>>, bad: seq<Cell>,
                   g: File)
    requires Stages(f, fmt, taxi, kept, rows, bad, g)
    ensures kept == DropRows(f.rows, fmt, f.size)
  {
    hide FromLE, Off, DropRows, Renumber, Bad, Touched;
  }
}
