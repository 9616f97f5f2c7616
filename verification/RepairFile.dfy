/** The repair as the tool runs it: packs into the file's bytes in place, and a new buffer where rows are dropped.
    Proved to write exactly what `FixDbc.Repair` says. */
module RepairFile {
  import opened Bytes
  import opened Dbc
  import opened FixDbc
  import opened Ordering

  // ---- cells in the file's bytes ------------------------------------------------------------------

  lemma {:induction false} FlatSet(rows: seq<seq<byte>>, size: nat, r: nat, at: nat, v: nat)
    requires r < |rows| && at + 4 <= size && forall q | 0 <= q < |rows| :: |rows[q]| == size
    ensures r * size + size <= |Flat(rows)|
    ensures Flat(rows[r := Set(rows[r], at, v)]) == Set(Flat(rows), r * size + at, v)
    decreases |rows|
  {
    hide ToLE;
    var n := |rows| - 1;
    FlatLength(rows, size);
    FlatLength(rows[..n], size);
    RowFits(|rows|, size, r);
    assert Flat(rows) == Flat(rows[..n]) + rows[n];
    var out := rows[r := Set(rows[r], at, v)];
    if r < n {
      FlatSet(rows[..n], size, r, at, v);
      assert out[..n] == rows[..n][r := Set(rows[r], at, v)];
      SetInLeft(Flat(rows[..n]), rows[n], r * size + at, v);
    } else {
      assert out[..n] == rows[..n];
      SetInRight(Flat(rows[..n]), rows[n], at, v);
    }
  }

  lemma SetInLeft(a: seq<byte>, b: seq<byte>, at: nat, v: nat)
    requires at + 4 <= |a|
    ensures Set(a + b, at, v) == Set(a, at, v) + b
  {
    hide ToLE;
  }

  lemma SetInRight(a: seq<byte>, b: seq<byte>, at: nat, v: nat)
    requires at + 4 <= |b|
    ensures Set(a + b, |a| + at, v) == a + Set(b, at, v)
  {
    hide ToLE;
  }

  /** Packing a word into a row's place in the file is packing it into the row. */
  lemma PackedRow(f: File, r: nat, at: nat, v: nat)
    requires Valid(f) && r < |f.rows| && at + 4 <= f.size
    ensures BASE + r * f.size + at + 4 <= |Written(f)|
    ensures Set(Written(f), BASE + r * f.size + at, v) == Written(f.(rows := f.rows[r := Set(f.rows[r], at, v)]))
    ensures Valid(f.(rows := f.rows[r := Set(f.rows[r], at, v)]))
  {
    hide ToLE, Flat, Head, Set;
    var g := f.(rows := f.rows[r := Set(f.rows[r], at, v)]);
    FlatSet(f.rows, f.size, r, at, v);
    HeadSame(f, g);
    SetInRight(Head(f), Flat(f.rows) + f.tail, r * f.size + at, v);
    SetInLeft(Flat(f.rows), f.tail, r * f.size + at, v);
    assert Written(f) == Head(f) + (Flat(f.rows) + f.tail);
    assert Written(g) == Head(g) + (Flat(g.rows) + g.tail);
  }

  lemma HeadSame(f: File, g: File)
    requires |f.rows| == |g.rows| && f.fields == g.fields && f.size == g.size && f.block == g.block
    ensures Head(f) == Head(g)
  {}

  lemma CellOfWritten(f: File, r: nat, at: nat)
    requires Valid(f) && r < |f.rows| && at + 4 <= f.size
    ensures BASE + r * f.size + at + 4 <= |Written(f)|
    ensures Get(Written(f), BASE + r * f.size + at) == Get(f.rows[r], at)
  {
    hide FromLE, ToLE, Flat, Head, Written, Rows;
    ReadOfWritten(f);
    CellOfRow(Written(f), f.size, |f.rows|, r, at);
  }

  /** `struct.pack_into("<I", blob, at, v)`. */
  method Pack(blob: array<byte>, at: nat, v: nat)
    requires at + 4 <= blob.Length
    modifies blob
    ensures blob[..] == Set(old(blob[..]), at, v)
  {
    hide ToLE;
    var w := ToLE(v, 4);
    blob[at], blob[at + 1], blob[at + 2], blob[at + 3] := w[0], w[1], w[2], w[3];
  }

  method ReadCell(blob: array<byte>, ghost f: File, size: nat, r: nat, at: nat) returns (v: nat)
    requires Valid(f) && blob[..] == Written(f) && r < |f.rows| && size == f.size && at + 4 <= size
    ensures v == Get(f.rows[r], at)
  {
    hide FromLE, Written, Get;
    CellOfWritten(f, r, at);
    v := Get(blob[..], BASE + r * size + at);
  }

  method WriteCell(blob: array<byte>, ghost f: File, size: nat, r: nat, at: nat, v: nat)
    requires Valid(f) && blob[..] == Written(f) && r < |f.rows| && size == f.size && at + 4 <= size
    modifies blob
    ensures blob[..] == Written(f.(rows := f.rows[r := Set(f.rows[r], at, v)]))
  {
    hide Written, Set, FromLE, ToLE, Get, Valid;
    PackedRow(f, r, at, v);
    Pack(blob, BASE + r * size + at, v);
  }

  // ---- dropping rows --------------------------------------------------------------------------------

  method Scan(blob: array<byte>, ghost f: File, count: nat, size: nat, at: nat) returns (drop: set<nat>)
    requires Valid(f) && blob[..] == Written(f) && count == |f.rows| && size == f.size && at + 4 <= size
    ensures drop == Doomed(f.rows, at)
  {
    hide FromLE, Written;
    drop := {};
    for r := 0 to count
      invariant drop == Doomed(f.rows[..r], at)
    {
      var id := ReadCell(blob, f, size, r, at);
      DoomedStep(f.rows[..r + 1], at, r);
      assert f.rows[..r + 1][..r] == f.rows[..r];
      if id == NO_ID {
        drop := drop + {r};
      }
    }
    assert f.rows[..count] == f.rows;
  }

  lemma RowOfWritten(f: File, r: nat)
    requires Valid(f) && r < |f.rows|
    ensures BASE + r * f.size + f.size <= |Written(f)| && RowAt(Written(f), f.size, r) == f.rows[r]
  {
    hide FromLE, ToLE, Flat, Head, Written, Rows;
    ReadOfWritten(f);
    RowsAre(Written(f), f.size, |f.rows|, r);
  }

  function Doomed(rows: seq<seq<byte>>, at: nat): set<nat>
    requires forall r | 0 <= r < |rows| :: at + 4 <= |rows[r]|
  {
    set r | 0 <= r < |rows| && Get(rows[r], at) == NO_ID
  }

  lemma DoomedStep(rows: seq<seq<byte>>, at: nat, n: nat)
    requires |rows| == n + 1 && forall r | 0 <= r < |rows| :: at + 4 <= |rows[r]|
    ensures Doomed(rows, at) == Doomed(rows[..n], at) + if Get(rows[n], at) == NO_ID then {n} else {}
    ensures n !in Doomed(rows[..n], at)
  {
    hide FromLE, Get;
  }

  lemma {:induction false} DroppedCount(rows: seq<seq<byte>>, at: nat)
    requires forall r | 0 <= r < |rows| :: at + 4 <= |rows[r]|
    ensures |Kept(rows, at)| + |Doomed(rows, at)| == |rows|
    decreases |rows|
  {
    hide FromLE, Get;
    if rows != [] {
      hide Doomed;
      var n := |rows| - 1;
      DroppedCount(rows[..n], at);
      DoomedStep(rows, at, n);
    }
  }

  /** The rows that stay, copied one by one. */
  method KeepRows(blob: array<byte>, ghost f: File, count: nat, size: nat, at: nat, drop: set<nat>)
    returns (keep: seq<byte>)
    requires Valid(f) && blob[..] == Written(f) && count == |f.rows| && size == f.size && at + 4 <= size
    requires drop == Doomed(f.rows, at)
    ensures keep == Flat(Kept(f.rows, at))
  {
    hide FromLE, Written, Flat, Kept, Get;
    keep := [];
    KeptNone(at);
    assert f.rows[..0] == [];
    for r := 0 to count
      invariant keep == Flat(Kept(f.rows[..r], at))
    {
      RowOfWritten(f, r);
      KeptStep(f.rows, r, at);
      if r !in drop {
        keep := keep + RowAt(blob[..], size, r);
      }
    }
    assert f.rows[..count] == f.rows;
  }

  lemma KeptNone(at: nat)
    ensures Flat(Kept([], at)) == []
  {}

  /** The new file: the survivors behind the header and before the strings, and the new count. */
  method Rebuild(blob: array<byte>, ghost f: File, count: nat, size: nat, at: nat, drop: set<nat>)
    returns (out: array<byte>)
    requires Valid(f) && blob[..] == Written(f) && count == |f.rows| && size == f.size && at + 4 <= size
    requires drop == Doomed(f.rows, at)
    ensures fresh(out) && out[..] == Written(f.(rows := Kept(f.rows, at)))
  {
    hide FromLE, Written, Head, Flat, Kept, Set, Get;
    var keep := KeepRows(blob, f, count, size, at, drop);
    ghost var g := f.(rows := Kept(f.rows, at));
    KeptShape(f.rows, at, size);
    DroppedCount(f.rows, at);
    RebuiltBytes(f, g);
    var data := blob[..][..BASE] + keep + blob[..][BASE + count * size..];
    out := new byte[|data|](i requires 0 <= i < |data| => data[i]);
    assert out[..] == data;
    Pack(out, 4, count - |drop|);
  }

  lemma KeptStep(rows: seq<seq<byte>>, n: nat, at: nat)
    requires n < |rows| && forall r | 0 <= r < |rows| :: at + 4 <= |rows[r]|
    ensures Flat(Kept(rows[..n + 1], at))
         == Flat(Kept(rows[..n], at)) + if Get(rows[n], at) == NO_ID then [] else rows[n]
  {
    hide FromLE, Get;
    assert rows[..n + 1][..n] == rows[..n];
    var k := Kept(rows[..n], at);
    if Get(rows[n], at) == NO_ID {
      assert k + [] == k;
      assert Flat(k) + [] == Flat(k);
    } else {
      assert (k + [rows[n]])[..|k|] == k;
    }
  }

  lemma RebuiltBytes(f: File, g: File)
    requires Valid(f) && Valid(g) && g == f.(rows := g.rows)
    ensures BASE + |f.rows| * f.size <= |Written(f)|
    ensures var s := Written(f);
            Set(s[..BASE] + Flat(g.rows) + s[BASE + |f.rows| * f.size..], 4, |g.rows|) == Written(g)
  {
    hide FromLE, ToLE, Flat, Head;
    FlatLength(f.rows, f.size);
    var s := Written(f);
    assert s[..BASE] == Head(f);
    assert s[BASE + |f.rows| * f.size..] == f.tail;
    HeadRecount(f, g);
    SetInLeft(Head(f), Flat(g.rows) + f.tail, 4, |g.rows|);
    assert Head(f) + Flat(g.rows) + f.tail == Head(f) + (Flat(g.rows) + f.tail);
    assert Written(g) == Head(g) + (Flat(g.rows) + f.tail);
  }

  lemma HeadRecount(f: File, g: File)
    requires g == f.(rows := g.rows)
    ensures Set(Head(f), 4, |g.rows|) == Head(g)
  {
    hide ToLE;
    assert Head(f)[..4] == MAGIC;
    assert Head(f)[8..] == Head(g)[8..];
  }

  // ---- the rows of one path, sorted ----------------------------------------------------------------

  /** An index and the row that holds it. */
  type Node = (nat, nat)

  predicate Precedes(p: Node, q: Node) {
    p.0 < q.0 || (p.0 == q.0 && p.1 < q.1)
  }

  predicate NotAfter(p: Node, q: Node) {
    p == q || Precedes(p, q)
  }

  ghost predicate Rising(s: seq<Node>) {
    forall i, j | 0 <= i < j < |s| :: Precedes(s[i], s[j])
  }

  /** `rows.sort()`. */
  function Sort(s: seq<Node>): seq<Node> {
    SortBy(s, NotAfter)
  }

  lemma SortRises(s: seq<Node>)
    requires NoRepeat(s)
    ensures Rising(Sort(s))
  {
    SortOrders(s, NotAfter);
    SortRepeatsNothing(s, NotAfter);
    var t := Sort(s);
    forall i, j | 0 <= i < j < |t| ensures Precedes(t[i], t[j]) {
      assert NotAfter(t[i], t[j]);
    }
  }

  /** What the grouping pass has listed for a path after n rows. */
  function Listed(rows: seq<seq<byte>>, a: nat, b: nat, key: nat, n: nat): seq<Node>
    requires Cells(rows, a, b) && n <= |rows|
  {
    if n == 0 then []
    else Listed(rows, a, b, key, n - 1) + if Get(rows[n - 1], a) == key then [(Get(rows[n - 1], b), n - 1)] else []
  }

  ghost predicate OnPath(rows: seq<seq<byte>>, a: nat, b: nat, key: nat, x: Node)
    requires Cells(rows, a, b)
  {
    x.1 < |rows| && Get(rows[x.1], a) == key && Get(rows[x.1], b) == x.0
  }

  lemma {:induction false} ListedExact(rows: seq<seq<byte>>, a: nat, b: nat, key: nat, n: nat, x: Node)
    requires Cells(rows, a, b) && n <= |rows|
    ensures x in Listed(rows, a, b, key, n) <==> x.1 < n && OnPath(rows, a, b, key, x)
    decreases n
  {
    hide FromLE, Get;
    if n > 0 {
      ListedExact(rows, a, b, key, n - 1, x);
    }
  }

  lemma {:induction false} ListedOnce(rows: seq<seq<byte>>, a: nat, b: nat, key: nat, n: nat)
    requires Cells(rows, a, b) && n <= |rows|
    ensures NoRepeat(Listed(rows, a, b, key, n))
    decreases n
  {
    hide FromLE, Get;
    if n > 0 {
      ListedOnce(rows, a, b, key, n - 1);
      ListedExact(rows, a, b, key, n - 1, (Get(rows[n - 1], b), n - 1));
    }
  }

  function FirstRows(s: seq<Node>, p: nat): set<nat>
    requires p <= |s|
  {
    if p == 0 then {} else FirstRows(s, p - 1) + {s[p - 1].1}
  }

  ghost predicate DistinctRows(s: seq<Node>) {
    forall i, j | 0 <= i < j < |s| :: s[i].1 != s[j].1
  }

  lemma {:induction false} FirstRowsHas(s: seq<Node>, p: nat, x: nat)
    requires p <= |s|
    ensures x in FirstRows(s, p) <==> exists i | 0 <= i < p :: s[i].1 == x
    decreases p
  {
    if p > 0 {
      FirstRowsHas(s, p - 1, x);
    }
  }

  lemma {:induction false} FirstRowsCount(s: seq<Node>, p: nat)
    requires p <= |s| && DistinctRows(s)
    ensures |FirstRows(s, p)| == p
    decreases p
  {
    if p > 0 {
      FirstRowsCount(s, p - 1);
      FirstRowsHas(s, p - 1, s[p - 1].1);
    }
  }

  /** The sorted rows of a path: exactly the path, each standing at its rank. */
  ghost predicate PathInOrder(rows: seq<seq<byte>>, a: nat, b: nat, key: nat, s: seq<Node>)
    requires Cells(rows, a, b)
  {
    && Rising(s) && DistinctRows(s)
    && (forall i | 0 <= i < |s| :: OnPath(rows, a, b, key, s[i]))
    && (forall r | 0 <= r < |rows| && Get(rows[r], a) == key :: (Get(rows[r], b), r) in s)
  }

  lemma SortedPath(rows: seq<seq<byte>>, a: nat, b: nat, key: nat)
    requires Cells(rows, a, b)
    ensures PathInOrder(rows, a, b, key, Sort(Listed(rows, a, b, key, |rows|)))
  {
    hide FromLE, Get, Listed, SortBy;
    var l := Listed(rows, a, b, key, |rows|);
    var s := Sort(l);
    ListedOnce(rows, a, b, key, |rows|);
    SortRises(l);
    forall i | 0 <= i < |s| ensures OnPath(rows, a, b, key, s[i]) {
      SortHolds(l, NotAfter, s[i]);
      ListedExact(rows, a, b, key, |rows|, s[i]);
    }
    forall r | 0 <= r < |rows| && Get(rows[r], a) == key ensures (Get(rows[r], b), r) in s {
      ListedExact(rows, a, b, key, |rows|, (Get(rows[r], b), r));
      SortHolds(l, NotAfter, (Get(rows[r], b), r));
    }
  }

  lemma RisingPlace(s: seq<Node>, i: nat, p: nat)
    requires Rising(s) && i < |s| && p < |s| && Precedes(s[i], s[p])
    ensures i < p
  {}

  lemma EarlierIsFirst(rows: seq<seq<byte>>, a: nat, b: nat, key: nat, s: seq<Node>, p: nat, q: nat)
    requires Cells(rows, a, b) && PathInOrder(rows, a, b, key, s) && p < |s|
    ensures q in Earlier(rows, a, b, s[p].1) <==> q in FirstRows(s, p)
  {
    hide FromLE, Get, FirstRows, Rising, DistinctRows;
    FirstRowsHas(s, p, q);
    assert OnPath(rows, a, b, key, s[p]);
    if q in Earlier(rows, a, b, s[p].1) {
      var x := (Get(rows[q], b), q);
      assert x in s;
      var i :| 0 <= i < |s| && s[i] == x;
      RisingPlace(s, i, p);
    }
    if q in FirstRows(s, p) {
      var i :| 0 <= i < p && s[i].1 == q;
      assert OnPath(rows, a, b, key, s[i]);
      RisingPair(s, i, p);
    }
  }

  lemma RisingPair(s: seq<Node>, i: nat, p: nat)
    requires Rising(s) && i < p < |s|
    ensures Precedes(s[i], s[p])
  {}

  lemma RankInOrder(rows: seq<seq<byte>>, a: nat, b: nat, key: nat, s: seq<Node>, p: nat)
    requires Cells(rows, a, b) && PathInOrder(rows, a, b, key, s) && p < |s|
    ensures s[p].1 < |rows| && Rank(rows, a, b, s[p].1) == p
  {
    hide FromLE, Get, Earlier, FirstRows, Rising;
    FirstRowsCount(s, p);
    assert OnPath(rows, a, b, key, s[p]);
    var e := Earlier(rows, a, b, s[p].1);
    forall q: nat ensures q in e <==> q in FirstRows(s, p) {
      EarlierIsFirst(rows, a, b, key, s, p, q);
    }
    assert e == FirstRows(s, p);
  }

  // ---- renumbering in place ---------------------------------------------------------------------------

  /** The rows with those in `written` already renumbered. */
  function Partly(rows: seq<seq<byte>>, a: nat, b: nat, written: set<nat>): (out: seq<seq<byte>>)
    requires Cells(rows, a, b)
    ensures |out| == |rows| && forall r | 0 <= r < |rows| :: |out[r]| == |rows[r]|
  {
    seq(|rows|, r requires 0 <= r < |rows| => if r in written then Set(rows[r], b, Rank(rows, a, b, r)) else rows[r])
  }

  lemma PartlyMore(rows: seq<seq<byte>>, a: nat, b: nat, written: set<nat>, r: nat)
    requires Cells(rows, a, b) && r < |rows|
    ensures Partly(rows, a, b, written + {r})
         == Partly(rows, a, b, written)[r := Set(Partly(rows, a, b, written)[r], b, Rank(rows, a, b, r))]
  {
    hide FromLE, Get, Set, Rank;
    SetOfSet(rows[r], b, Rank(rows, a, b, r), Rank(rows, a, b, r));
  }

  lemma PartlyNone(rows: seq<seq<byte>>, a: nat, b: nat)
    requires Cells(rows, a, b)
    ensures Partly(rows, a, b, {}) == rows
  {
    hide FromLE, Get, Set, Rank;
  }

  lemma PartlyAll(rows: seq<seq<byte>>, a: nat, b: nat, written: set<nat>)
    requires Cells(rows, a, b) && forall r | 0 <= r < |rows| :: r in written
    ensures Partly(rows, a, b, written) == Renumbered(rows, a, b)
  {
    hide FromLE, Get, Set, Rank;
  }

  /** Rows that stand at their rank need no write. */
  lemma PartlyPlaced(rows: seq<seq<byte>>, a: nat, b: nat, written: set<nat>, more: set<nat>)
    requires Cells(rows, a, b)
    requires forall r | r in more && r < |rows| :: Get(rows[r], b) == Rank(rows, a, b, r)
    ensures Partly(rows, a, b, written + more) == Partly(rows, a, b, written)
  {
    hide FromLE, Get, Set, Rank;
    var x, y := Partly(rows, a, b, written + more), Partly(rows, a, b, written);
    forall r | 0 <= r < |rows| ensures x[r] == y[r] {
      SetOfGet(rows[r], b);
    }
  }

  method Group(blob: array<byte>, ghost f: File, count: nat, size: nat, a: nat, b: nat)
    returns (byPath: map<nat, seq<Node>>)
    requires Valid(f) && blob[..] == Written(f) && count == |f.rows| && size == f.size && Cells(f.rows, a, b)
    requires a + 4 <= size && b + 4 <= size
    ensures forall key | key in byPath :: byPath[key] == Listed(f.rows, a, b, key, |f.rows|)
    ensures forall key: nat | key !in byPath :: Listed(f.rows, a, b, key, |f.rows|) == []
  {
    hide FromLE, Written, Get, Cells;
    byPath := map[];
    for r := 0 to count
      invariant forall key | key in byPath :: byPath[key] == Listed(f.rows, a, b, key, r)
      invariant forall key: nat | key !in byPath :: Listed(f.rows, a, b, key, r) == []
    {
      var key := ReadCell(blob, f, size, r, a);
      var ix := ReadCell(blob, f, size, r, b);
      byPath := byPath[key := (if key in byPath then byPath[key] else []) + [(ix, r)]];
    }
  }

  method WritePath(blob: array<byte>, ghost f: File, size: nat, ghost a: nat, b: nat, ghost key: nat, s: seq<Node>,
                   ghost written: set<nat>)
    requires Valid(f) && size == f.size && Cells(f.rows, a, b) && PathInOrder(f.rows, a, b, key, s)
    requires b + 4 <= size && blob[..] == Written(f.(rows := Partly(f.rows, a, b, written)))
    modifies blob
    ensures blob[..] == Written(f.(rows := Partly(f.rows, a, b, written + FirstRows(s, |s|))))
  {
    hide FromLE, Written, Get, Set, Rank, Cells, PathInOrder, Partly;
    assert written + FirstRows(s, 0) == written;
    for p := 0 to |s|
      invariant blob[..] == Written(f.(rows := Partly(f.rows, a, b, written + FirstRows(s, p))))
    {
      var r := s[p].1;
      RankInOrder(f.rows, a, b, key, s, p);
      ghost var now := written + FirstRows(s, p);
      PartlyMore(f.rows, a, b, now, r);
      assert written + FirstRows(s, p + 1) == now + {r};
      WriteCell(blob, f.(rows := Partly(f.rows, a, b, now)), size, r, b, p);
    }
  }

  ghost predicate HasGap(rows: seq<seq<byte>>, a: nat, b: nat, key: nat)
    requires Cells(rows, a, b)
  {
    exists r | 0 <= r < |rows| :: Get(rows[r], a) == key && Get(rows[r], b) != Rank(rows, a, b, r)
  }

  lemma GapIsSeen(rows: seq<seq<byte>>, a: nat, b: nat, key: nat, s: seq<Node>)
    requires Cells(rows, a, b) && PathInOrder(rows, a, b, key, s)
    ensures HasGap(rows, a, b, key) <==> !(forall p | 0 <= p < |s| :: s[p].0 == p)
  {
    hide FromLE, Get, Rank, Rising, DistinctRows;
    forall p | 0 <= p < |s|
      ensures OnPath(rows, a, b, key, s[p]) && Rank(rows, a, b, s[p].1) == p
    {
      RankInOrder(rows, a, b, key, s, p);
    }
    if HasGap(rows, a, b, key) {
      var r :| 0 <= r < |rows| && Get(rows[r], a) == key && Get(rows[r], b) != Rank(rows, a, b, r);
      assert (Get(rows[r], b), r) in s;
    }
  }

  ghost predicate OnKeys(rows: seq<seq<byte>>, a: nat, b: nat, keys: set<nat>, written: set<nat>)
    requires Cells(rows, a, b)
  {
    forall r | 0 <= r < |rows| :: r in written <==> Get(rows[r], a) in keys
  }

  lemma OnKeysMore(rows: seq<seq<byte>>, a: nat, b: nat, key: nat, s: seq<Node>, keys: set<nat>, written: set<nat>)
    requires Cells(rows, a, b) && PathInOrder(rows, a, b, key, s) && OnKeys(rows, a, b, keys, written)
    ensures OnKeys(rows, a, b, keys + {key}, written + FirstRows(s, |s|))
    ensures forall r | 0 <= r < |rows| :: r in FirstRows(s, |s|) <==> Get(rows[r], a) == key
  {
    hide FromLE, Get, Rising, DistinctRows, FirstRows;
    forall r | 0 <= r < |rows| ensures r in FirstRows(s, |s|) <==> Get(rows[r], a) == key {
      FirstRowsHas(s, |s|, r);
      if Get(rows[r], a) == key {
        assert (Get(rows[r], b), r) in s;
      }
      if r in FirstRows(s, |s|) {
        var i :| 0 <= i < |s| && s[i].1 == r;
        assert OnPath(rows, a, b, key, s[i]);
      }
    }
  }

  /** The renumbering pass, path by path in any order. */
  method RenumberPaths(blob: array<byte>, ghost f: File, count: nat, size: nat, a: nat, b: nat)
    returns (fixed: set<nat>)
    requires Valid(f) && blob[..] == Written(f) && count == |f.rows| && size == f.size && Cells(f.rows, a, b)
    requires a + 4 <= size && b + 4 <= size
    modifies blob
    ensures blob[..] == Written(f.(rows := Renumbered(f.rows, a, b))) && fixed == Gapped(f.rows, a, b)
  {
    hide FromLE, Written, Get, Set, Rank, Cells, PathInOrder, Partly, Listed, Gapped, HasGap;
    var byPath := Group(blob, f, count, size, a, b);
    fixed := {};
    ghost var written: set<nat> := {};
    PartlyNone(f.rows, a, b);
    assert f.(rows := f.rows) == f;
    var todo := byPath.Keys;
    while todo != {}
      invariant todo <= byPath.Keys
      invariant OnKeys(f.rows, a, b, byPath.Keys - todo, written)
      invariant blob[..] == Written(f.(rows := Partly(f.rows, a, b, written)))
      invariant forall key: nat :: key in fixed <==> key in byPath.Keys - todo && HasGap(f.rows, a, b, key)
      decreases todo
    {
      var key :| key in todo;
      todo := todo - {key};
      var s := Sort(byPath[key]);
      SortedPath(f.rows, a, b, key);
      GapIsSeen(f.rows, a, b, key, s);
      OnKeysMore(f.rows, a, b, key, s, byPath.Keys - todo - {key}, written);
      assert byPath.Keys - todo == byPath.Keys - todo - {key} + {key};
      if forall p | 0 <= p < |s| :: s[p].0 == p {
        PlacedPath(f.rows, a, b, key, FirstRows(s, |s|));
        PartlyPlaced(f.rows, a, b, written, FirstRows(s, |s|));
      } else {
        fixed := fixed + {key};
        WritePath(blob, f, size, a, b, key, s, written);
      }
      written := written + FirstRows(s, |s|);
    }
    AllKeys(f.rows, a, b, byPath.Keys, written, fixed);
    PartlyAll(f.rows, a, b, written);
  }

  lemma PlacedPath(rows: seq<seq<byte>>, a: nat, b: nat, key: nat, more: set<nat>)
    requires Cells(rows, a, b) && !HasGap(rows, a, b, key)
    requires forall r | 0 <= r < |rows| :: r in more <==> Get(rows[r], a) == key
    ensures forall r | r in more && r < |rows| :: Get(rows[r], b) == Rank(rows, a, b, r)
  {
    hide FromLE, Get, Rank;
  }

  lemma AllKeys(rows: seq<seq<byte>>, a: nat, b: nat, keys: set<nat>, written: set<nat>, fixed: set<nat>)
    requires Cells(rows, a, b) && OnKeys(rows, a, b, keys, written)
    requires forall key: nat | key !in keys :: Listed(rows, a, b, key, |rows|) == []
    requires forall key: nat :: key in fixed <==> key in keys && HasGap(rows, a, b, key)
    ensures forall r | 0 <= r < |rows| :: r in written
    ensures fixed == Gapped(rows, a, b)
  {
    hide FromLE, Get, Rank, Listed;
    forall r | 0 <= r < |rows| ensures Get(rows[r], a) in keys {
      ListedExact(rows, a, b, Get(rows[r], a), |rows|, (Get(rows[r], b), r));
    }
  }

  // ---- string offsets, in place -----------------------------------------------------------------------

  method FindBad(blob: array<byte>, ghost f: File, count: nat, size: nat, fmt: string, off: seq<nat>, block: nat)
    returns (bad: seq<Cell>)
    requires Valid(f) && blob[..] == Written(f) && count == |f.rows| && size == f.size && LaidIn(f.rows, fmt)
    requires Off(fmt, |fmt|) <= size && |off| == |fmt| && forall i | 0 <= i < |fmt| :: off[i] == Off(fmt, i)
    ensures bad == Bad(f.rows, fmt, block, |fmt|)
  {
    hide FromLE, Written, Get, Off, LaidIn;
    bad := [];
    for i := 0 to |fmt|
      invariant bad == Bad(f.rows, fmt, block, i)
    {
      if fmt[i] == 's' {
        CellFits(fmt, i);
        ghost var before := bad;
        for r := 0 to count
          invariant bad == before + BadInColumn(f.rows, i, off[i], block, r)
        {
          var v := ReadCell(blob, f, size, r, off[i]);
          if v >= block {
            bad := bad + [(i, r)];
          }
        }
      }
    }
  }

  method Redirect(blob: array<byte>, ghost f: File, size: nat, fmt: string, off: seq<nat>, bad: seq<Cell>, empty: nat)
    requires Valid(f) && blob[..] == Written(f) && size == f.size && LaidIn(f.rows, fmt)
    requires StringCells(f.rows, fmt, bad)
    requires Off(fmt, |fmt|) <= size && |off| == |fmt| && forall i | 0 <= i < |fmt| :: off[i] == Off(fmt, i)
    modifies blob
    ensures blob[..] == Written(f.(rows := Touched(f.rows, fmt, bad, empty)))
  {
    hide FromLE, ToLE, Written, Set, Off, LaidIn;
    assert f.(rows := f.rows) == f;
    for k := 0 to |bad|
      invariant blob[..] == Written(f.(rows := Touched(f.rows, fmt, bad[..k], empty)))
    {
      var (c, r) := bad[k];
      CellFits(fmt, c);
      assert bad[..k + 1][..k] == bad[..k];
      WriteCell(blob, f.(rows := Touched(f.rows, fmt, bad[..k], empty)), size, r, off[c], empty);
    }
    assert bad[..|bad|] == bad;
  }

  // ---- the tool ---------------------------------------------------------------------------------------

  /** Files the tool leaves alone: not a table, not of this format's shape, or without rows. */
  predicate Ignored(blob: seq<byte>, fmt: string) {
    |blob| < BASE || blob[..4] != MAGIC || Get(blob, 8) != |fmt| || Get(blob, 4) == 0
  }

  method DropIds(blob: array<byte>, ghost f: File, count: nat, size: nat, fmt: string, off: seq<nat>)
    returns (out: array<byte>, dropped: nat)
    requires Valid(f) && blob[..] == Written(f) && count == |f.rows| && size == f.size
    requires Off(fmt, |fmt|) <= size && |off| == |fmt| && forall i | 0 <= i < |fmt| :: off[i] == Off(fmt, i)
    ensures out == blob || fresh(out)
    ensures var g := f.(rows := DropRows(f.rows, fmt, size));
            Valid(g) && out[..] == Written(g) && dropped == count - |g.rows|
  {
    hide FromLE, Written, Get, Off, Kept;
    out, dropped := blob, 0;
    var i := IdColumn(fmt);
    assert f.(rows := f.rows) == f;
    if i < |fmt| {
      CellFits(fmt, i);
      var drop := Scan(blob, f, count, size, off[i]);
      DroppedCount(f.rows, off[i]);
      if drop != {} {
        out := Rebuild(blob, f, count, size, off[i], drop);
        dropped := |drop|;
      } else {
        NoneDoomed(f.rows, off[i]);
      }
    }
  }

  lemma NoneDoomed(rows: seq<seq<byte>>, at: nat)
    requires forall r | 0 <= r < |rows| :: at + 4 <= |rows[r]|
    requires Doomed(rows, at) == {}
    ensures Kept(rows, at) == rows
  {
    hide FromLE, Get;
    forall r | 0 <= r < |rows| ensures Get(rows[r], at) != NO_ID {
      assert r !in Doomed(rows, at);
    }
    KeptAll(rows, at);
  }

  /** The taxi pass, where it applies. */
  method NumberPaths(blob: array<byte>, ghost f: File, ghost kept: seq<seq<byte>>, count: nat, size: nat,
                     fmt: string, taxi: bool, off: seq<nat>)
    returns (fixed: set<nat>)
    requires size == f.size && WellFormed(f, fmt, taxi) && Valid(f.(rows := kept)) && count == |kept|
    requires blob[..] == Written(f.(rows := kept))
    requires |off| == |fmt| && forall i | 0 <= i < |fmt| :: off[i] == Off(fmt, i)
    modifies blob
    ensures blob[..] == Written(f.(rows := Renumber(f, fmt, taxi, kept)))
    ensures fixed == GappedPaths(f, fmt, taxi, kept)
  {
    hide Written, Off, Renumbered, Gapped;
    fixed := {};
    if taxi && |fmt| > 2 {
      PathCells(f, fmt, kept);
      CellFits(fmt, 1);
      CellFits(fmt, 2);
      fixed := RenumberPaths(blob, f.(rows := kept), count, size, off[1], off[2]);
    }
  }

  /** The string pass: nothing is written unless the block ends in NUL. */
  method FixStrings(blob: array<byte>, ghost f: File, count: nat, size: nat, block: nat, fmt: string, off: seq<nat>)
    returns (ok: bool, bad: seq<Cell>)
    requires Valid(f) && blob[..] == Written(f) && count == |f.rows| && size == f.size && LaidIn(f.rows, fmt)
    requires block == f.block <= |f.tail|
    requires Off(fmt, |fmt|) <= size && |off| == |fmt| && forall i | 0 <= i < |fmt| :: off[i] == Off(fmt, i)
    modifies blob
    ensures bad == Bad(f.rows, fmt, block, |fmt|) && StringCells(f.rows, fmt, bad)
    ensures ok <==> bad == [] || SafeEnd(f)
    ensures ok ==> blob[..] == Written(f.(rows := if bad == [] then f.rows else Touched(f.rows, fmt, bad, block - 1)))
  {
    hide Written, Off, Bad, Touched, LaidIn;
    ok := true;
    assert f.(rows := f.rows) == f;
    bad := FindBad(blob, f, count, size, fmt, off, block);
    BadAreStrings(f.rows, fmt, block);
    if bad != [] {
      TailByte(f, block);
      if block < 1 || blob[BASE + count * size + (block - 1)] != 0 {
        ok := false;
        return;
      }
      Redirect(blob, f, size, fmt, off, bad, block - 1);
    }
  }

  method Repair(blob: array<byte>, fmt: string, taxi: bool) returns (out: array<byte>, ok: bool, done: Repairs)
    requires Ignored(blob[..], fmt) || (Holds(blob[..]) && WellFormed(Read(blob[..]), fmt, taxi))
    modifies blob
    ensures Ignored(old(blob[..]), fmt) ==> ok && out == blob && out[..] == old(blob[..]) && done == NOTHING
    ensures !Ignored(old(blob[..]), fmt) ==>
              match FixDbc.Repair(Read(old(blob[..])), fmt, taxi)
              case None => !ok
              case Some(o) => ok && out[..] == Written(o.file) && done == o.repairs
  {
    hide FromLE, Written, Get, Off, DropRows, Renumber, GappedPaths, Bad, Touched, Read, Holds;
    out, ok, done := blob, true, NOTHING;
    if Ignored(blob[..], fmt) {
      return;
    }
    ghost var f := Read(blob[..]);
    WrittenOfRead(blob[..]);
    ReadFields(blob[..]);
    var count, size, block := Get(blob[..], 4), Get(blob[..], 12), Get(blob[..], 16);
    var off, _ := Offsets(fmt);
    var dropped: nat;
    out, dropped := DropIds(blob, f, count, size, fmt, off);
    count := count - dropped;
    ghost var kept := DropRows(f.rows, fmt, size);
    var fixed := NumberPaths(out, f, kept, count, size, fmt, taxi, off);
    ghost var rows := Renumber(f, fmt, taxi, kept);
    var bad: seq<Cell>;
    ok, bad := FixStrings(out, f.(rows := rows), count, size, block, fmt, off);
    done := Repairs(dropped, fixed, bad);
  }

  lemma ReadFields(blob: seq<byte>)
    requires Holds(blob)
    ensures var f := Read(blob);
            |f.rows| == Get(blob, 4) && f.fields == Get(blob, 8) && f.size == Get(blob, 12) && f.block == Get(blob, 16)
  {}

  /** The last byte of the string block, where the tool looks for it. */
  lemma TailByte(f: File, block: nat)
    requires Valid(f) && block <= |f.tail|
    ensures BASE + |f.rows| * f.size + |f.tail| == |Written(f)|
    ensures block >= 1 ==> Written(f)[BASE + |f.rows| * f.size + (block - 1)] == f.tail[block - 1]
  {
    hide ToLE, Flat, Head;
    FlatLength(f.rows, f.size);
  }
}
