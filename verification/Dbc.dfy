/** Client tables: a 20-byte header, fixed-size rows, a string block; and the checker that judges them by the
    core's own column formats. */
module Dbc {
  import opened Bytes

  const WORD: nat := 0x1_0000_0000
  const BASE: nat := 20
  const MAGIC: seq<byte> := [0x57, 0x44, 0x42, 0x43]

  // ---- 32-bit words in bytes --------------------------------------------------------------

  function Get(s: seq<byte>, at: nat): nat
    requires at + 4 <= |s|
  {
    FromLE(s[at..at + 4])
  }

  function Set(s: seq<byte>, at: nat, v: nat): (t: seq<byte>)
    requires at + 4 <= |s|
    ensures |t| == |s|
  {
    s[..at] + ToLE(v, 4) + s[at + 4..]
  }

  lemma FourBytes()
    ensures Pow256(4) == WORD
  {
    assert Pow256(1) == 256 && Pow256(2) == 0x1_0000 && Pow256(3) == 0x100_0000;
  }

  lemma GetBound(s: seq<byte>, at: nat)
    requires at + 4 <= |s|
    ensures Get(s, at) < WORD
  {
    FourBytes();
    ToLEOfFromLE(s[at..at + 4]);
  }

  lemma GetOfSet(s: seq<byte>, at: nat, v: nat)
    requires at + 4 <= |s| && v < WORD
    ensures Get(Set(s, at, v), at) == v
  {
    hide ToLE, FromLE;
    FourBytes();
    FromLEOfToLE(v, 4);
    assert Set(s, at, v)[at..at + 4] == ToLE(v, 4);
  }

  lemma SetKeeps(s: seq<byte>, at: nat, v: nat, k: nat)
    requires at + 4 <= |s| && k < |s| && (k < at || at + 4 <= k)
    ensures Set(s, at, v)[k] == s[k]
  {
    hide ToLE;
  }

  lemma GetOfOther(s: seq<byte>, at: nat, v: nat, other: nat)
    requires at + 4 <= |s| && other + 4 <= |s| && (other + 4 <= at || at + 4 <= other)
    ensures Get(Set(s, at, v), other) == Get(s, other)
  {
    hide ToLE, FromLE;
    assert Set(s, at, v)[other..other + 4] == s[other..other + 4];
  }

  lemma SetOfGet(s: seq<byte>, at: nat)
    requires at + 4 <= |s|
    ensures Set(s, at, Get(s, at)) == s
  {
    hide ToLE, FromLE;
    ToLEOfFromLE(s[at..at + 4]);
  }

  lemma SetOfSet(s: seq<byte>, at: nat, u: nat, v: nat)
    requires at + 4 <= |s|
    ensures Set(Set(s, at, u), at, v) == Set(s, at, v)
  {
    hide ToLE;
  }

  // ---- column formats ---------------------------------------------------------------------------

  function Width(c: char): (w: nat)
    ensures w == 1 || w == 4
  {
    if c == 'b' || c == 'X' then 1 else 4
  }

  /** Where column i starts; for i == |fmt|, the laid-out size. */
  function Off(fmt: string, i: nat): nat
    requires i <= |fmt|
  {
    if i == 0 then 0 else Off(fmt, i - 1) + Width(fmt[i - 1])
  }

  lemma {:induction false} OffGrows(fmt: string, i: nat, j: nat)
    requires i < j <= |fmt|
    ensures Off(fmt, i) + Width(fmt[i]) <= Off(fmt, j)
    decreases j
  {
    if i < j - 1 {
      OffGrows(fmt, i, j - 1);
    }
  }

  /** `offsets`. */
  lemma OffNext(fmt: string)
    ensures Off(fmt, 0) == 0
    ensures forall i | 0 <= i < |fmt| :: Off(fmt, i + 1) == Off(fmt, i) + Width(fmt[i])
  {}

  method Offsets(fmt: string) returns (off: seq<nat>, size: nat)
    ensures |off| == |fmt| && size == Off(fmt, |fmt|)
    ensures forall i | 0 <= i < |fmt| :: off[i] == Off(fmt, i)
  {
    hide Off;
    OffNext(fmt);
    off, size := [], 0;
    for i := 0 to |fmt|
      invariant |off| == i && size == Off(fmt, i)
      invariant forall k | 0 <= k < i :: off[k] == Off(fmt, k)
    {
      off := off + [size];
      size := size + if fmt[i] == 'b' || fmt[i] == 'X' then 1 else 4;
    }
  }

  // ---- files as rows ----------------------------------------------------------------------------

  /** The header without its row count is `magic`, `fields`, `size` and `block`; the tail is whatever follows
      the rows. */
  datatype File = File(fields: nat, size: nat, block: nat, rows: seq<seq<byte>>, tail: seq<byte>)

  ghost predicate Valid(f: File) {
    && f.fields < WORD && f.size < WORD && f.block < WORD && |f.rows| < WORD
    && (forall r | 0 <= r < |f.rows| :: |f.rows[r]| == f.size)
  }

  function Flat(rows: seq<seq<byte>>): seq<byte>
    decreases |rows|
  {
    if rows == [] then [] else Flat(rows[..|rows| - 1]) + rows[|rows| - 1]
  }

  function Head(f: File): (h: seq<byte>)
    ensures |h| == BASE
  {
    MAGIC + ToLE(|f.rows|, 4) + ToLE(f.fields, 4) + ToLE(f.size, 4) + ToLE(f.block, 4)
  }

  function Written(f: File): seq<byte> {
    Head(f) + Flat(f.rows) + f.tail
  }

  /** The rows of a file cut at multiples of the record size. */
  predicate Holds(blob: seq<byte>) {
    && |blob| >= BASE && blob[..4] == MAGIC
    && BASE + Get(blob, 4) * Get(blob, 12) <= |blob|
  }

  function RowAt(blob: seq<byte>, size: nat, r: nat): (row: seq<byte>)
    requires BASE + r * size + size <= |blob|
    ensures |row| == size
  {
    blob[BASE + r * size..BASE + r * size + size]
  }

  lemma RowFits(count: nat, size: nat, r: nat)
    requires r < count
    ensures r * size + size <= count * size
  {
    assert count * size == r * size + size + (count - r - 1) * size;
  }

  function Rows(blob: seq<byte>, size: nat, n: nat): (rows: seq<seq<byte>>)
    requires BASE + n * size <= |blob|
    ensures |rows| == n && forall r | 0 <= r < n :: |rows[r]| == size
    decreases n
  {
    if n == 0 then []
    else
      RowFits(n, size, n - 1);
      Rows(blob, size, n - 1) + [RowAt(blob, size, n - 1)]
  }

  function Read(blob: seq<byte>): (f: File)
    requires Holds(blob)
    ensures |f.rows| == Get(blob, 4) && f.fields == Get(blob, 8) && f.size == Get(blob, 12) && f.block == Get(blob, 16)
    ensures Valid(f)
  {
    GetBound(blob, 4);
    GetBound(blob, 8);
    GetBound(blob, 12);
    GetBound(blob, 16);
    var n, size := Get(blob, 4), Get(blob, 12);
    File(Get(blob, 8), size, Get(blob, 16), Rows(blob, size, n), blob[BASE + n * size..])
  }

  lemma {:induction false} FlatOfRows(blob: seq<byte>, size: nat, n: nat)
    requires BASE + n * size <= |blob|
    ensures Flat(Rows(blob, size, n)) == blob[BASE..BASE + n * size]
    decreases n
  {
    hide Rows;
    if n == 0 {
      NoRows(blob, size);
    } else {
      RowFits(n, size, n - 1);
      FlatOfRows(blob, size, n - 1);
      RowsStep(blob, size, n);
      assert n * size == (n - 1) * size + size;
    }
  }

  lemma RowsStep(blob: seq<byte>, size: nat, n: nat)
    requires n > 0 && BASE + n * size <= |blob| && BASE + (n - 1) * size + size <= |blob|
    ensures Rows(blob, size, n)[..n - 1] == Rows(blob, size, n - 1)
    ensures Rows(blob, size, n)[n - 1] == RowAt(blob, size, n - 1)
  {
    hide RowAt;
  }

  /** Reading and writing are inverse: a file is its rows. */
  lemma WrittenOfRead(blob: seq<byte>)
    requires Holds(blob)
    ensures Written(Read(blob)) == blob
  {
    hide ToLE, FromLE, Flat, Rows;
    var f := Read(blob);
    FlatOfRows(blob, f.size, |f.rows|);
    WordBytes(blob, 4);
    WordBytes(blob, 8);
    WordBytes(blob, 12);
    WordBytes(blob, 16);
    FiveWords(blob);
    assert blob[20..] == blob[20..20 + |f.rows| * f.size] + f.tail;
  }

  lemma FiveWords(s: seq<byte>)
    requires |s| >= 20
    ensures s == s[..4] + s[4..8] + s[8..12] + s[12..16] + s[16..20] + s[20..]
  {}

  lemma WordBytes(s: seq<byte>, at: nat)
    requires at + 4 <= |s|
    ensures ToLE(Get(s, at), 4) == s[at..at + 4]
  {
    ToLEOfFromLE(s[at..at + 4]);
  }

  lemma {:induction false} FlatLength(rows: seq<seq<byte>>, size: nat)
    requires forall r | 0 <= r < |rows| :: |rows[r]| == size
    ensures |Flat(rows)| == |rows| * size
    decreases |rows|
  {
    if rows != [] {
      FlatLength(rows[..|rows| - 1], size);
      assert |rows| * size == (|rows| - 1) * size + size;
    }
  }

  lemma {:induction false} RowsOfFlat(head: seq<byte>, rows: seq<seq<byte>>, size: nat, tail: seq<byte>)
    requires |head| == BASE && forall r | 0 <= r < |rows| :: |rows[r]| == size
    ensures var blob := head + Flat(rows) + tail;
            BASE + |rows| * size <= |blob| && Rows(blob, size, |rows|) == rows && blob[BASE + |rows| * size..] == tail
    decreases |rows|
  {
    hide RowAt, Rows;
    FlatLength(rows, size);
    var blob := head + Flat(rows) + tail;
    if rows == [] {
      NoRows(blob, size);
    } else {
      var n := |rows| - 1;
      RowsOfFlat(head, rows[..n], size, rows[n] + tail);
      assert head + Flat(rows[..n]) + (rows[n] + tail) == blob;
      LastRow(blob, size, n, rows[n], tail);
      assert rows == rows[..n] + [rows[n]];
    }
  }

  lemma NoRows(blob: seq<byte>, size: nat)
    requires BASE <= |blob|
    ensures Rows(blob, size, 0) == []
  {}

  lemma LastRow(blob: seq<byte>, size: nat, n: nat, row: seq<byte>, tail: seq<byte>)
    requires |row| == size && BASE + n * size <= |blob| && blob[BASE + n * size..] == row + tail
    ensures (n + 1) * size == n * size + size && BASE + (n + 1) * size <= |blob|
    ensures Rows(blob, size, n + 1) == Rows(blob, size, n) + [row]
    ensures blob[BASE + (n + 1) * size..] == tail
  {
    assert (n + 1) * size == n * size + size;
    var rest := blob[BASE + n * size..];
    assert rest[..size] == row && rest[size..] == tail;
    assert RowAt(blob, size, n) == rest[..size];
    assert blob[BASE + (n + 1) * size..] == rest[size..];
  }

  lemma HeadWords(f: File, rest: seq<byte>)
    requires Valid(f)
    ensures var blob := Head(f) + rest;
            && blob[..4] == MAGIC && Get(blob, 4) == |f.rows| && Get(blob, 8) == f.fields
            && Get(blob, 12) == f.size && Get(blob, 16) == f.block
  {
    hide ToLE, FromLE;
    FourBytes();
    var blob := Head(f) + rest;
    FromLEOfToLE(|f.rows|, 4);
    FromLEOfToLE(f.fields, 4);
    FromLEOfToLE(f.size, 4);
    FromLEOfToLE(f.block, 4);
    assert blob[4..8] == ToLE(|f.rows|, 4);
    assert blob[8..12] == ToLE(f.fields, 4);
    assert blob[12..16] == ToLE(f.size, 4);
    assert blob[16..20] == ToLE(f.block, 4);
  }

  lemma ReadOfWritten(f: File)
    requires Valid(f)
    ensures Holds(Written(f)) && Read(Written(f)) == f
  {
    hide ToLE, FromLE, Flat, Rows, Head;
    assert Written(f) == Head(f) + (Flat(f.rows) + f.tail);
    HeadWords(f, Flat(f.rows) + f.tail);
    RowsOfFlat(Head(f), f.rows, f.size, f.tail);
  }

  // ---- the checker --------------------------------------------------------------------------------

  datatype Complaint =
    | NotTable
    | Truncated(have: nat, want: nat)
    | BadColumn(column: nat, bad: nat, rows: nat, block: nat, worst: nat)

  datatype Note = FieldCount(have: nat, want: nat) | RecordSize(have: nat, laid: nat)

  datatype Report = Report(errors: seq<Complaint>, notes: seq<Note>)

  /** Some string column lies past the end of a record. */
  predicate Overruns(fmt: string, size: nat) {
    exists i | 0 <= i < |fmt| :: fmt[i] == 's' && Off(fmt, i) + 4 > size
  }

  function Wrong(rows: seq<seq<byte>>, at: nat, block: nat): nat
    requires forall r | 0 <= r < |rows| :: at + 4 <= |rows[r]|
    decreases |rows|
  {
    if rows == [] then 0
    else
      var n := |rows| - 1;
      Wrong(rows[..n], at, block) + if Get(rows[n], at) >= block then 1 else 0
  }

  function Worst(rows: seq<seq<byte>>, at: nat, block: nat): nat
    requires forall r | 0 <= r < |rows| :: at + 4 <= |rows[r]|
    decreases |rows|
  {
    if rows == [] then 0
    else
      var n := |rows| - 1;
      var w, v := Worst(rows[..n], at, block), Get(rows[n], at);
      if v >= block && v > w then v else w
  }

  /** The complaints about the first n columns. */
  function Complaints(rows: seq<seq<byte>>, fmt: string, size: nat, block: nat, n: nat): seq<Complaint>
    requires n <= |fmt| && (rows == [] || !Overruns(fmt, size))
    requires forall r | 0 <= r < |rows| :: |rows[r]| == size
  {
    if n == 0 then []
    else
      var rest := Complaints(rows, fmt, size, block, n - 1);
      if fmt[n - 1] != 's' then rest
      else
        var at := Off(fmt, n - 1);
        var bad := Wrong(rows, at, block);
        if bad == 0 then rest else rest + [BadColumn(n - 1, bad, |rows|, block, Worst(rows, at, block))]
  }

  /** `check`; None where its reads run past the data it has. */
  function Check(blob: seq<byte>, fmt: string): Option<Report> {
    if |blob| < 4 || blob[..4] != MAGIC then Some(Report([NotTable], []))
    else if |blob| < BASE then None
    else if |fmt| != Get(blob, 8) then Some(Report([], [FieldCount(Get(blob, 8), |fmt|)]))
    else
      var count, size, laid := Get(blob, 4), Get(blob, 12), Off(fmt, |fmt|);
      var notes := if laid != size then [RecordSize(size, laid)] else [];
      if |blob| < BASE + count * size then Some(Report([Truncated(|blob| - BASE, count * size)], notes))
      else if count > 0 && Overruns(fmt, size) then None
      else Some(Report(Complaints(Rows(blob, size, count), fmt, size, Get(blob, 16), |fmt|), notes))
  }

  lemma {:induction false} RowsAre(blob: seq<byte>, size: nat, n: nat, r: nat)
    requires r < n && BASE + n * size <= |blob|
    ensures BASE + r * size + size <= |blob| && Rows(blob, size, n)[r] == RowAt(blob, size, r)
    decreases n
  {
    hide RowAt;
    RowFits(n, size, r);
    RowFits(n, size, n - 1);
    if r < n - 1 {
      RowsAre(blob, size, n - 1, r);
    }
  }

  /** A cell read straight from the file is that cell of its row. */
  lemma CellOfRow(blob: seq<byte>, size: nat, n: nat, r: nat, at: nat)
    requires r < n && BASE + n * size <= |blob| && at + 4 <= size
    ensures BASE + r * size + at + 4 <= |blob|
    ensures Get(Rows(blob, size, n)[r], at) == Get(blob, BASE + r * size + at)
  {
    hide FromLE, Rows;
    RowsAre(blob, size, n, r);
    SliceOfSlice(blob, BASE + r * size, size, at);
  }

  lemma SliceOfSlice(s: seq<byte>, a: nat, n: nat, at: nat)
    requires a + n <= |s| && at + 4 <= n
    ensures s[a..a + n][at..at + 4] == s[a + at..a + at + 4]
  {
    var t, u := s[a..a + n][at..at + 4], s[a + at..a + at + 4];
    assert |t| == |u| && forall k | 0 <= k < 4 :: t[k] == s[a + at + k] == u[k];
  }

  method CheckFile(blob: seq<byte>, fmt: string) returns (report: Option<Report>)
    ensures report == Check(blob, fmt)
  {
    hide Off, Rows, FromLE, Overruns;
    if |blob| < 4 || blob[..4] != MAGIC {
      return Some(Report([NotTable], []));
    }
    if |blob| < BASE {
      return None;
    }
    var count, fields, size, block := Get(blob, 4), Get(blob, 8), Get(blob, 12), Get(blob, 16);
    if |fmt| != fields {
      return Some(Report([], [FieldCount(fields, |fmt|)]));
    }
    var off, laid := Offsets(fmt);
    var notes := if laid != size then [RecordSize(size, laid)] else [];
    if |blob| < BASE + count * size {
      return Some(Report([Truncated(|blob| - BASE, count * size)], notes));
    }
    ghost var rows := Rows(blob, size, count);
    var errors := [];
    for i := 0 to |fmt|
      invariant count == 0 || forall k | 0 <= k < i :: fmt[k] == 's' ==> off[k] + 4 <= size
      invariant count == 0 || !Overruns(fmt, size) ==> errors == Complaints(rows, fmt, size, block, i)
    {
      if fmt[i] == 's' {
        if count > 0 && off[i] + 4 > size {
          OverrunAt(fmt, size, i);
          return None;
        }
        var bad, worst := CheckColumn(blob, count, size, off[i], block);
        if bad > 0 {
          errors := errors + [BadColumn(i, bad, count, block, worst)];
        }
      }
    }
    if count > 0 {
      NoOverrun(fmt, size);
    }
    report := Some(Report(errors, notes));
  }

  lemma OverrunAt(fmt: string, size: nat, i: nat)
    requires i < |fmt| && fmt[i] == 's' && Off(fmt, i) + 4 > size
    ensures Overruns(fmt, size)
  {}

  lemma NoOverrun(fmt: string, size: nat)
    requires forall k | 0 <= k < |fmt| :: fmt[k] == 's' ==> Off(fmt, k) + 4 <= size
    ensures !Overruns(fmt, size)
  {}

  /** One string column, row by row. */
  method CheckColumn(blob: seq<byte>, count: nat, size: nat, at: nat, block: nat) returns (bad: nat, worst: nat)
    requires BASE + count * size <= |blob| && (count == 0 || at + 4 <= size)
    ensures bad == Wrong(Rows(blob, size, count), at, block)
    ensures worst == Worst(Rows(blob, size, count), at, block)
  {
    hide Rows, FromLE;
    ghost var rows := Rows(blob, size, count);
    bad, worst := 0, 0;
    for r := 0 to count
      invariant bad == Wrong(rows[..r], at, block) && worst == Worst(rows[..r], at, block)
    {
      CellOfRow(blob, size, count, r, at);
      assert rows[..r + 1][..r] == rows[..r];
      var v := Get(blob, BASE + r * size + at);
      if v >= block {
        bad := bad + 1;
        worst := if v > worst then v else worst;
      }
    }
    assert rows[..count] == rows;
  }

  /** Every string column of every row lies inside the string block: what the core asserts. */
  ghost predicate StringsInside(rows: seq<seq<byte>>, fmt: string, block: nat) {
    forall i, r | 0 <= i < |fmt| && fmt[i] == 's' && 0 <= r < |rows| ::
      Off(fmt, i) + 4 <= |rows[r]| && Get(rows[r], Off(fmt, i)) < block
  }

  lemma {:induction false} WrongNone(rows: seq<seq<byte>>, at: nat, block: nat)
    requires forall r | 0 <= r < |rows| :: at + 4 <= |rows[r]|
    ensures Wrong(rows, at, block) == 0 <==> forall r | 0 <= r < |rows| :: Get(rows[r], at) < block
    decreases |rows|
  {
    hide FromLE;
    if rows != [] {
      WrongNone(rows[..|rows| - 1], at, block);
    }
  }

  lemma {:induction false} ComplaintsNone(rows: seq<seq<byte>>, fmt: string, size: nat, block: nat, n: nat)
    requires n <= |fmt| && !Overruns(fmt, size)
    requires forall r | 0 <= r < |rows| :: |rows[r]| == size
    ensures Complaints(rows, fmt, size, block, n) == [] <==>
            forall i, r | 0 <= i < n && fmt[i] == 's' && 0 <= r < |rows| :: Get(rows[r], Off(fmt, i)) < block
  {
    hide FromLE, Off, Wrong, Worst;
    if n > 0 {
      ComplaintsNone(rows, fmt, size, block, n - 1);
      if fmt[n - 1] == 's' {
        WrongNone(rows, Off(fmt, n - 1), block);
      }
    }
  }

  /** The checker finds no error in a complete table of the right shape exactly when every string offset is
      inside the block. */
  lemma CheckIsExact(f: File, fmt: string)
    requires Valid(f) && f.fields == |fmt| && (f.rows == [] || !Overruns(fmt, f.size))
    ensures var report := Check(Written(f), fmt);
            report.Some? && (report.value.errors == [] <==> StringsInside(f.rows, fmt, f.block))
  {
    hide FromLE, Off, Rows, Written, Complaints;
    ReadOfWritten(f);
    if f.rows == [] {
      NoComplaints(fmt, f.size, f.block, |fmt|);
    } else {
      ComplaintsNone(f.rows, fmt, f.size, f.block, |fmt|);
      assert forall i | 0 <= i < |fmt| && fmt[i] == 's' :: Off(fmt, i) + 4 <= f.size;
    }
  }

  lemma {:induction false} NoComplaints(fmt: string, size: nat, block: nat, n: nat)
    requires n <= |fmt|
    ensures Complaints([], fmt, size, block, n) == []
  {
    if n > 0 {
      NoComplaints(fmt, size, block, n - 1);
    }
  }
}
