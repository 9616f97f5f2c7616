/** One character's session: world entry, the deferred advancement block, known-entry edits and builds. */
module Advancement {
  import opened Bytes
  import opened Ordering
  import opened Spellbook

  /** ARCHIVE_CA_MODE. */
  datatype Mode = Full | BudgetOnly | KnownOnly | NoBlock

  const FALLBACK: int := 10_000

  datatype State = State(book: Book, classByte: nat, active: string, builds: map<string, seq<Row>>,
                         inWorld: bool, pending: Option<int>, ack: Option<string>)

  /** Client packets and dot commands; times are in milliseconds. */
  datatype Event =
    | Login(now: int)
    | Logout
    | SetActiveMover
    | Ping(now: int)
    | Upload(records: seq<Row>)
    | Activate(build: string)
    | AddEntry(row: Row)
    | RemoveEntry(id: int)
    | ClearEntries
    | LearnClass(kind: nat, tab: Option<nat>)
    | ChangeClass(to: nat, keep: bool)
    | SaveBuild(name: string)
    | ForgetBuild(name: string)
    | ApplyBuild(name: string)
    | ResendEssence
    | SetButton(slot: nat, packed: nat)

  // ---- row edits ------------------------------------------------------------------------

  /** Insertion-ordered dictionary assignment: a known id keeps its place. */
  function Put(rows: seq<Row>, r: Row): seq<Row> {
    var i := Place(rows, r.id);
    if i < |rows| then rows[i := r] else rows + [r]
  }

  /** Where an id stands, or the end. */
  function Place(rows: seq<Row>, id: int): (i: nat)
    ensures i <= |rows|
    ensures i < |rows| ==> rows[i].id == id
    ensures forall j | 0 <= j < i :: rows[j].id != id
    decreases |rows|
  {
    if rows == [] || rows[0].id == id then 0 else 1 + Place(rows[1..], id)
  }

  /** The upload keeps, of records with one id, the first of highest rank. */
  function Best(records: seq<Row>): seq<Row>
    decreases |records|
  {
    if records == [] then []
    else
      var n := |records| - 1;
      Bettered(Best(records[..n]), records[n])
  }

  function Bettered(best: seq<Row>, r: Row): seq<Row> {
    var i := Place(best, r.id);
    if i < |best| && r.rank <= best[i].rank then best else Put(best, r)
  }

  function PutAll(rows: seq<Row>, more: seq<Row>): seq<Row>
    decreases |more|
  {
    if more == [] then rows else Put(PutAll(rows, more[..|more| - 1]), more[|more| - 1])
  }

  ghost predicate OnePerId(rows: seq<Row>) {
    forall i, j | 0 <= i < j < |rows| :: rows[i].id != rows[j].id
  }

  function Without(rows: seq<Row>, gone: set<int>): seq<Row>
    decreases |rows|
  {
    if rows == [] then []
    else
      var n := |rows| - 1;
      Without(rows[..n], gone) + (if rows[n].id in gone then [] else [rows[n]])
  }

  /** Every entry of a class type, or of one tab of it, at rank 1. */
  function Picked(d: Data, index: seq<int>, kind: nat, tab: Option<nat>): seq<Row>
    decreases |index|
  {
    if index == [] then []
    else
      var n := |index| - 1;
      var id := index[n];
      Picked(d, index[..n], kind, tab)
      + (if id in d.entries && d.entries[id].kind == kind && (tab.None? || d.entries[id].tab == tab.value)
         then [Row(id, 1)] else [])
  }

  // ---- class types ------------------------------------------------------------------------

  const CLASSIC: nat := 10
  const FIRST_CUSTOM: nat := 12
  const LAST_CUSTOM: nat := 32

  /** `class_type_matches`. */
  predicate Matches(t: ClassType, c: nat) {
    if t.required != 0 then c == t.required
    else if t.classic then c == CLASSIC
    else t.custom && FIRST_CUSTOM <= c <= LAST_CUSTOM
  }

  function Playable(types: seq<ClassType>, c: nat): set<nat> {
    set t | t in types && Matches(t, c) :: t.name
  }

  function KindOf(d: Data, id: int): nat {
    if id in d.entries then d.entries[id].kind else 0
  }

  /** `class_unlearnable`, as the ids to drop. */
  function Unlearnable(d: Data, rows: seq<Row>, c: nat): set<int> {
    if d.index == [] then {} else set r | r in rows && KindOf(d, r.id) !in Playable(d.types, c) :: r.id
  }

  // ---- the session ------------------------------------------------------------------------

  function EssenceRows(n: nat): (ps: seq<Packet>)
    ensures |ps| == n
  {
    seq(n, i requires 0 <= i < n => Essence(i))
  }

  /** `set_known` and `send_known_entries`. */
  function Store(d: Data, s: State, rows: seq<Row>): State {
    s.(book := SendKnown(d, s.book.(known := rows)))
  }

  /** `flush_ca`. */
  function Flush(d: Data, m: Mode, s: State): State {
    if m == NoBlock then s.(pending := None)
    else
      var b0 := Post(s.book, [Spec]);
      var b1 := if m == KnownOnly then b0 else Post(b0, EssenceRows(d.essence));
      var b2 := if m == BudgetOnly then b1 else SendKnown(d, b1);
      var b3 := if s.active != "" then Post(b2, [Active(s.active)]) else b2;
      var b4 := if s.ack.Some? then Post(b3, [Result(true)]) else b3;
      s.(book := b4, pending := None, ack := None)
  }

  /** CMSG_BUILD_ACTIVATE: deferred while the block is owed, else answered at once. */
  function Activated(d: Data, s: State, id: string): State {
    if s.pending.Some? then
      if id !in s.builds then s.(book := Post(s.book, [Result(false)]))
      else s.(book := s.book.(known := ById(s.builds[id]), sent := None), active := id, ack := Some(id))
    else if id !in s.builds then
      s.(book := Post(SendKnown(d, s.book), [Result(false)]))
    else
      var b := SendKnown(d, s.book.(known := ById(s.builds[id])));
      s.(book := Post(Post(b, [Active(id)]), [Result(true)]), active := id)
  }

  /** `.class`: entries the new class cannot learn go, unless told to keep them. */
  function Reclassed(d: Data, s: State, c: nat, keep: bool): State {
    if c == s.classByte then s
    else
      var gone := Unlearnable(d, s.book.known, c);
      var known := if gone == {} || keep then s.book.known else Without(ById(s.book.known), gone);
      var b := Post(Post(s.book.(known := known), [ClassByte(c)]), EssenceRows(d.essence));
      s.(book := SendKnown(d, b), classByte := c)
  }

  function Step(d: Data, m: Mode, s: State, e: Event): State {
    if e.Login? then
      s.(book := SendBook(d, Post(s.book, [Entered])), inWorld := true, pending := Some(e.now))
    else if !s.inWorld then s
    else Answer(d, m, s, e)
  }

  /** The rows a plain edit stores, if it stores any. */
  function Edited(d: Data, s: State, e: Event): Option<seq<Row>> {
    var rows := ById(s.book.known);
    match e
    case Upload(records) => Some(ById(Best(records)))
    case AddEntry(r) => Some(ById(Without(rows, {r.id}) + [r]))
    case RemoveEntry(id) =>
      var kept := Without(rows, {id});
      if |kept| == |rows| then None else Some(kept)
    case ClearEntries => Some([])
    case LearnClass(kind, tab) =>
      var picked := Picked(d, d.index, kind, tab);
      if picked == [] then None else Some(ById(PutAll(PutAll([], rows), picked)))
    case ApplyBuild(id) => if id in s.builds then Some(ById(s.builds[id])) else None
    case _ => None
  }

  /** Whether an event sends the deferred block. */
  predicate Flushes(s: State, e: Event) {
    s.pending.Some? && (e.SetActiveMover? || (e.Ping? && e.now - s.pending.value >= FALLBACK))
  }

  function Answer(d: Data, m: Mode, s: State, e: Event): State {
    match e
    case Logout => s.(inWorld := false, pending := None)
    case SetActiveMover => if Flushes(s, e) then Flush(d, m, s) else s
    case Ping(_) => if Flushes(s, e) then Flush(d, m, s) else s
    case Activate(id) => Activated(d, s, id)
    case ChangeClass(c, keep) => Reclassed(d, s, c, keep)
    case SaveBuild(id) => if s.book.known == [] then s else s.(builds := s.builds[id := ById(s.book.known)])
    case ForgetBuild(id) => s.(builds := s.builds - {id})
    case ResendEssence => s.(book := Post(s.book, EssenceRows(d.essence)))
    case SetButton(slot, packed) => s.(book := s.book.(bars := Bound(s.book.bars, slot, packed)))
    case _ => var rows := Edited(d, s, e); if rows.Some? then Store(d, s, rows.value) else s
  }

  /** `bars_set`: 0 clears a slot. */
  function Bound(bars: map<nat, nat>, slot: nat, packed: nat): map<nat, nat> {
    if packed == 0 then bars - {slot} else bars[slot := packed]
  }

  function Run(d: Data, m: Mode, s: State, es: seq<Event>): State
    decreases |es|
  {
    if es == [] then s else Run(d, m, Step(d, m, s, es[0]), es[1..])
  }

  /** A server with stored rows and bars, before anyone has entered the world. */
  predicate Fresh(s: State) {
    !s.inWorld && s.pending.None? && s.ack.None? && s.book.sent.None? && s.book.log == []
  }

  // ---- what a wire log shows ----------------------------------------------------------------

  /** `shown` is the last known-entry packet; `specs` counts the blocks since the last world entry;
      `acked` says every success so far came after a packet showing the rows stored at that moment;
      `ordered` that every known-entry packet so far came after the container of its world entry. */
  datatype Trace = Trace(shown: Option<seq<Row>>, specs: nat, acks: nat, acked: bool, ordered: bool)

  function Note(t: Trace, e: Sent): Trace {
    match e.packet
    case Entered => t.(specs := 0)
    case Spec => t.(specs := t.specs + 1)
    case Known(rows) => t.(shown := Some(rows), ordered := t.ordered && t.specs > 0)
    case Result(ok) => if ok then t.(acks := t.acks + 1, acked := t.acked && t.shown == Some(ById(e.known))) else t
    case _ => t
  }

  function Seen(log: seq<Sent>): Trace
    decreases |log|
  {
    if log == [] then Trace(None, 0, 0, true, true) else Note(Seen(log[..|log| - 1]), log[|log| - 1])
  }

  predicate Plain(p: Packet) {
    !p.Entered? && !p.Spec? && !p.Known? && !p.Result?
  }

  lemma SeenOne(b: Book, p: Packet)
    ensures Seen(Post(b, [p]).log) == Note(Seen(b.log), Sent(p, b.known))
  {
    var log := Post(b, [p]).log;
    assert log == b.log + [Sent(p, b.known)];
    assert log[..|b.log|] == b.log;
  }

  lemma {:induction false} SeenPlain(b: Book, ps: seq<Packet>)
    requires forall p | p in ps :: Plain(p)
    ensures Seen(Post(b, ps).log) == Seen(b.log)
    decreases |ps|
  {
    hide Seen;
    if ps == [] {
      assert Post(b, ps).log == b.log;
    } else {
      var n := |ps| - 1;
      SeenPlain(b, ps[..n]);
      SeenOne(Post(b, ps[..n]), ps[n]);
      PostSplit(b, ps, n);
      assert Plain(ps[n]);
    }
  }

  lemma PostSplit(b: Book, ps: seq<Packet>, n: nat)
    requires |ps| == n + 1
    ensures Post(b, ps).log == Post(Post(b, ps[..n]), [ps[n]]).log
  {}

  lemma SeenButtons(d: Data, b: Book)
    ensures Seen(SendButtons(d, b).log) == Seen(b.log)
  {
    hide Seen, Autofill, Spellset, OnBar;
    var layout := SendButtons(d, b).bars;
    SeenPlain(b.(bars := layout), [Buttons(OnBar(layout))]);
  }

  lemma SeenSync(d: Data, b: Book)
    ensures Seen(Sync(d, b).log) == Seen(b.log)
  {
    hide Seen, Grants, Ascending, SendButtons, Stamped;
    var now, was := Grants(d, b.known), Was(b);
    var ps := LearnAll(Ascending(now - was)) + RemoveAll(Ascending(was - now));
    SeenPlain(b, ps);
    SeenButtons(d, Post(b, ps).(bars := Unbound(b.bars, was - now)));
  }

  lemma SeenKnown(d: Data, b: Book)
    ensures Seen(SendKnown(d, b).log) == Note(Seen(b.log), Sent(Known(ById(b.known)), b.known))
    ensures SendKnown(d, b).known == b.known && SendKnown(d, b).sent == Some(Grants(d, b.known))
  {
    hide Seen, Sync, Grants, Note;
    var b1 := Post(b, [Known(ById(b.known))]);
    SeenOne(b, Known(ById(b.known)));
    SeenSync(d, b1);
    SyncState(d, b1);
  }

  lemma SeenBook(d: Data, b: Book)
    ensures Seen(SendBook(d, b).log) == Seen(b.log)
    ensures SendBook(d, b).known == b.known && SendBook(d, b).sent == Some(Grants(d, b.known))
  {
    hide Seen, Spellset, SendButtons, Grants, Stamped;
    var b1 := Post(b, [Spells(Spellset(d, b)), Unlearn]);
    SeenPlain(b, [Spells(Spellset(d, b)), Unlearn]);
    SeenButtons(d, b1);
    ButtonsKeep(d, b1);
  }

  function Showing(t: Trace, known: seq<Row>): Trace {
    t.(shown := Some(ById(known)), ordered := t.ordered && t.specs > 0)
  }

  function Acking(t: Trace, known: seq<Row>): Trace {
    t.(acks := t.acks + 1, acked := t.acked && t.shown == Some(ById(known)))
  }

  lemma SeenEssence(b: Book, n: nat)
    ensures Seen(Post(b, EssenceRows(n)).log) == Seen(b.log)
  {
    hide Seen;
    SeenPlain(b, EssenceRows(n));
  }

  lemma SeenResult(b: Book, ok: bool)
    ensures Seen(Post(b, [Result(ok)]).log) == if ok then Acking(Seen(b.log), b.known) else Seen(b.log)
  {
    hide Seen;
    SeenOne(b, Result(ok));
  }

  lemma SeenFlush(d: Data, m: Mode, s: State)
    requires m != NoBlock
    ensures var t := Seen(s.book.log).(specs := Seen(s.book.log).specs + 1);
            var t1 := if m == BudgetOnly then t else Showing(t, s.book.known);
            Seen(Flush(d, m, s).book.log) == if s.ack.Some? then Acking(t1, s.book.known) else t1
  {
    hide Seen, SendKnown, EssenceRows, Post, Grants;
    var b0 := Post(s.book, [Spec]);
    SeenOne(s.book, Spec);
    PostKeeps(s.book, [Spec]);
    var b1 := if m == KnownOnly then b0 else Post(b0, EssenceRows(d.essence));
    SeenEssence(b0, d.essence);
    PostKeeps(b0, EssenceRows(d.essence));
    var b2 := if m == BudgetOnly then b1 else SendKnown(d, b1);
    SeenKnown(d, b1);
    var b3 := if s.active != "" then Post(b2, [Active(s.active)]) else b2;
    SeenOne(b2, Active(s.active));
    PostKeeps(b2, [Active(s.active)]);
    SeenResult(b3, true);
  }

  lemma PostKeeps(b: Book, ps: seq<Packet>)
    ensures Post(b, ps).known == b.known && Post(b, ps).sent == b.sent && Post(b, ps).bars == b.bars
  {}

  lemma SeenActivated(d: Data, s: State, id: string)
    ensures var t, t' := Seen(s.book.log), Seen(Activated(d, s, id).book.log);
            if s.pending.Some? then t' == t
            else if id !in s.builds then t' == Showing(t, s.book.known)
            else var rows := ById(s.builds[id]); t' == Acking(Showing(t, rows), rows)
  {
    hide Seen, SendKnown, Post, Grants;
    if s.pending.Some? {
      SeenResult(s.book, false);
    } else if id !in s.builds {
      SeenKnown(d, s.book);
      SeenResult(SendKnown(d, s.book), false);
    } else {
      var b0 := s.book.(known := ById(s.builds[id]));
      var b := SendKnown(d, b0);
      SeenKnown(d, b0);
      SeenOne(b, Active(id));
      PostKeeps(b, [Active(id)]);
      SeenResult(Post(b, [Active(id)]), true);
    }
  }

  lemma SeenReclassed(d: Data, s: State, c: nat, keep: bool)
    ensures var t, s' := Seen(s.book.log), Reclassed(d, s, c, keep);
            Seen(s'.book.log) == if c == s.classByte then t else Showing(t, s'.book.known)
  {
    hide Seen, SendKnown, Post, Grants, Unlearnable, Without;
    if c != s.classByte {
      var gone := Unlearnable(d, s.book.known, c);
      var known := if gone == {} || keep then s.book.known else Without(ById(s.book.known), gone);
      var b0 := s.book.(known := known);
      var b1 := Post(b0, [ClassByte(c)]);
      SeenOne(b0, ClassByte(c));
      PostKeeps(b0, [ClassByte(c)]);
      SeenEssence(b1, d.essence);
      PostKeeps(b1, EssenceRows(d.essence));
      SeenKnown(d, Post(b1, EssenceRows(d.essence)));
    }
  }

  lemma SeenLogin(d: Data, m: Mode, s: State, now: int)
    ensures Seen(Step(d, m, s, Login(now)).book.log) == Seen(s.book.log).(specs := 0)
  {
    hide Seen, SendBook, Post;
    SeenOne(s.book, Entered);
    SeenBook(d, Post(s.book, [Entered]));
  }

  /** Whether an event sends the known-entry packet on its own account. */
  predicate Shows(d: Data, s: State, e: Event) {
    match e
    case Activate(_) => s.pending.None?
    case ChangeClass(c, _) => c != s.classByte
    case _ => Edited(d, s, e).Some?
  }

  /** An edit that arrives while the block is still owed. */
  predicate Hasty(d: Data, s: State, e: Event) {
    s.inWorld && s.pending.Some? && Shows(d, s, e)
  }

  predicate Accepts(s: State, e: Event) {
    s.inWorld && e.Activate? && e.build in s.builds
  }

  /** All a step does to the trace, for the three quantities the laws below are about. */
  lemma SeenStep(d: Data, m: Mode, s: State, e: Event)
    ensures var t, t', s' := Seen(s.book.log), Seen(Step(d, m, s, e).book.log), Step(d, m, s, e);
            var flushed := s.inWorld && Flushes(s, e) && m != NoBlock;
            && t'.specs == (if e.Login? then 0 else if flushed then t.specs + 1 else t.specs)
            && t'.acked == (t.acked
                            && !(flushed && m == BudgetOnly && s.ack.Some? && t.shown != Some(ById(s.book.known))))
            && t'.ordered == (t.ordered && !(s.inWorld && Shows(d, s, e) && t.specs == 0))
            && t'.acks + Owed(s') <= t.acks + Owed(s) + (if Accepts(s, e) then 1 else 0)
  {
    hide Seen, Store, Flush, Activated, Reclassed, Edited, ById, Post, EssenceRows, Bound;
    if e.Login? {
      SeenLogin(d, m, s, e.now);
      LoginFields(d, m, s, e.now);
      NoEdit(d, s, e);
    } else if s.inWorld {
      if Flushes(s, e) {
        NoEdit(d, s, e);
        FlushFields(d, m, s);
        if m != NoBlock {
          SeenFlush(d, m, s);
        }
      } else {
        SeenAnswer(d, m, s, e);
      }
    } else {
      NoEdit(d, s, e);
    }
  }

  function Owed(s: State): nat {
    if s.ack.Some? then 1 else 0
  }

  lemma NoEdit(d: Data, s: State, e: Event)
    ensures !IsEdit(e) ==> Edited(d, s, e).None?
  {}

  lemma LoginFields(d: Data, m: Mode, s: State, now: int)
    ensures var s' := Step(d, m, s, Login(now));
            s'.ack == s.ack && s'.inWorld && s'.pending == Some(now)
  {}

  lemma FlushFields(d: Data, m: Mode, s: State)
    ensures var s' := Flush(d, m, s);
            && s'.pending.None? && s'.inWorld == s.inWorld && s'.book.known == s.book.known
            && s'.ack == (if m == NoBlock then s.ack else None)
            && (m == NoBlock ==> s'.book == s.book)
  {
    hide SendKnown, EssenceRows, Post, Grants;
    if m != NoBlock {
      var b0 := Post(s.book, [Spec]);
      PostKeeps(s.book, [Spec]);
      var b1 := if m == KnownOnly then b0 else Post(b0, EssenceRows(d.essence));
      PostKeeps(b0, EssenceRows(d.essence));
      var b2 := if m == BudgetOnly then b1 else SendKnown(d, b1);
      SeenKnown(d, b1);
      var b3 := if s.active != "" then Post(b2, [Active(s.active)]) else b2;
      PostKeeps(b2, [Active(s.active)]);
      PostKeeps(b3, [Result(true)]);
    }
  }

  lemma SeenAnswer(d: Data, m: Mode, s: State, e: Event)
    requires s.inWorld && !e.Login? && !Flushes(s, e)
    ensures var t, s' := Seen(s.book.log), Answer(d, m, s, e);
            var t' := Seen(s'.book.log);
            && t'.specs == t.specs && t'.acked == t.acked
            && t'.ordered == (t.ordered && !(Shows(d, s, e) && t.specs == 0))
            && t'.acks + Owed(s') <= t.acks + Owed(s) + (if Accepts(s, e) then 1 else 0)
  {
    hide Seen, Store, Flush, Activated, Reclassed, Edited, ById, Post, EssenceRows, Bound;
    if e.Activate? {
      SeenActivated(d, s, e.build);
      ActivatedFields(d, s, e.build);
    } else if e.ChangeClass? {
      SeenReclassed(d, s, e.to, e.keep);
      ReclassedFields(d, s, e.to, e.keep);
    } else if IsEdit(e) {
      var rows := Edited(d, s, e);
      if rows.Some? {
        SeenStore(d, s, rows.value);
      }
    } else {
      NoEdit(d, s, e);
      SeenEssence(s.book, d.essence);
    }
  }

  predicate IsEdit(e: Event) {
    e.Upload? || e.AddEntry? || e.RemoveEntry? || e.ClearEntries? || e.LearnClass? || e.ApplyBuild?
  }

  lemma SeenStore(d: Data, s: State, rows: seq<Row>)
    ensures Seen(Store(d, s, rows).book.log) == Showing(Seen(s.book.log), rows)
    ensures var s' := Store(d, s, rows);
            s' == s.(book := s'.book) && s'.book.known == rows && s'.book.sent == Some(Grants(d, rows))
  {
    hide Seen, SendKnown, Grants;
    SeenKnown(d, s.book.(known := rows));
  }

  lemma ActivatedFields(d: Data, s: State, id: string)
    ensures var s' := Activated(d, s, id);
            && s'.inWorld == s.inWorld && s'.pending == s.pending
            && s'.ack == if s.pending.Some? && id in s.builds then Some(id) else s.ack
  {}

  lemma ReclassedFields(d: Data, s: State, c: nat, keep: bool)
    ensures var s' := Reclassed(d, s, c, keep);
            s'.inWorld == s.inWorld && s'.pending == s.pending && s'.ack == s.ack
  {}

  lemma StepFields(d: Data, m: Mode, s: State, e: Event)
    ensures var s' := Step(d, m, s, e);
            && s'.inWorld == (e.Login? || (s.inWorld && !e.Logout?))
            && s'.pending == (if e.Login? then Some(e.now)
                              else if s.inWorld && (e.Logout? || Flushes(s, e)) then None else s.pending)
  {
    hide Store, Flush, Activated, Reclassed, Edited, Flushes, SendBook;
    FlushFields(d, m, s);
    NoFlush(s, e);
    if s.inWorld && e.Activate? {
      ActivatedFields(d, s, e.build);
    } else if s.inWorld && e.ChangeClass? {
      ReclassedFields(d, s, e.to, e.keep);
    } else if s.inWorld && IsEdit(e) {
      var rows := Edited(d, s, e);
      if rows.Some? {
        SeenStore(d, s, rows.value);
      }
    }
  }

  lemma NoFlush(s: State, e: Event)
    ensures Flushes(s, e) ==> s.pending.Some? && (e.SetActiveMover? || e.Ping?)
  {}

  lemma FlushStep(d: Data, m: Mode, s: State)
    requires s.inWorld && s.pending.Some?
    ensures Step(d, m, s, SetActiveMover) == Flush(d, m, s)
  {
    hide Flush;
  }

  lemma StoreBars(d: Data, s: State, rows: seq<Row>)
    ensures Store(d, s, rows).book == SendKnown(d, s.book.(known := rows))
  {
    hide SendKnown;
  }

  // ---- what the edits store -----------------------------------------------------------------------

  /** One row per id; the ids are the uploaded ones; each has the highest rank uploaded for it. */
  ghost predicate BestOf(records: seq<Row>, best: seq<Row>) {
    && OnePerId(best)
    && (forall r | r in best :: r in records && forall x | x in records :: x.id == r.id ==> x.rank <= r.rank)
    && (forall x | x in records :: exists r :: r in best && r.id == x.id)
  }

  lemma {:induction false} BestIsBest(records: seq<Row>)
    ensures BestOf(records, Best(records))
    decreases |records|
  {
    hide BestOf, Bettered;
    if records == [] {
      BestOfNone();
    } else {
      var n := |records| - 1;
      BestIsBest(records[..n]);
      BestStep(records[..n], Best(records[..n]), records[n]);
      assert records == records[..n] + [records[n]];
    }
  }

  lemma BestOfNone()
    ensures BestOf([], [])
  {}

  lemma BestStep(records: seq<Row>, best: seq<Row>, r: Row)
    requires BestOf(records, best)
    ensures BestOf(records + [r], Bettered(best, r))
  {
    hide Bettered;
    var all, best' := records + [r], Bettered(best, r);
    BettersOne(best, r);
    forall q | q in best' ensures q in all && forall x | x in all :: x.id == q.id ==> x.rank <= q.rank {
      BestRow(records, best, r, q);
    }
    forall x | x in all ensures exists q :: q in best' && q.id == x.id {
      BestKeeps(best, r, x.id);
    }
  }

  lemma BestKeeps(best: seq<Row>, r: Row, id: int)
    requires id == r.id || exists q :: q in best && q.id == id
    ensures exists q :: q in Bettered(best, r) && q.id == id
  {
    var i, best' := Place(best, r.id), Bettered(best, r);
    if id == r.id {
      assert best'[i] in best' && best'[i].id == id;
    } else {
      var q :| q in best && q.id == id;
      var j :| 0 <= j < |best| && best[j] == q;
      assert best'[j] in best' && best'[j] == q;
    }
  }

  lemma BettersOne(best: seq<Row>, r: Row)
    requires OnePerId(best)
    ensures OnePerId(Bettered(best, r))
  {}

  lemma BestRow(records: seq<Row>, best: seq<Row>, r: Row, q: Row)
    requires BestOf(records, best) && q in Bettered(best, r)
    ensures q in records + [r]
    ensures forall x | x in records + [r] :: x.id == q.id ==> x.rank <= q.rank
  {
    hide Bettered;
    BetteredRow(best, r, q);
    if q == r {
      forall x | x in records && x.id == r.id && q !in best ensures x.rank <= r.rank {
        var b :| b in best && b.id == x.id;
      }
    }
  }

  /** A row of the bettered list: an old one that the new record does not beat, or the new one, which beats the
      old. */
  lemma BetteredRow(best: seq<Row>, r: Row, q: Row)
    requires OnePerId(best) && q in Bettered(best, r)
    ensures (q in best && (q.id == r.id ==> r.rank <= q.rank))
         || (q == r && forall b | b in best :: b.id == r.id ==> b.rank <= r.rank)
  {
    var i, best' := Place(best, r.id), Bettered(best, r);
    var k :| 0 <= k < |best'| && best'[k] == q;
    if k < |best| && best'[k] == best[k] {
      assert q in best;
    }
  }

  lemma WithoutUnfolds(rows: seq<Row>, gone: set<int>)
    ensures rows == [] ==> Without(rows, gone) == []
    ensures rows != [] ==> var n := |rows| - 1;
              Without(rows, gone) == Without(rows[..n], gone) + if rows[n].id in gone then [] else [rows[n]]
  {}

  lemma {:induction false} WithoutExact(rows: seq<Row>, gone: set<int>)
    ensures forall r :: r in Without(rows, gone) <==> (r in rows && r.id !in gone)
    ensures Sorted(rows) ==> Sorted(Without(rows, gone))
    decreases |rows|
  {
    hide Without;
    WithoutUnfolds(rows, gone);
    if rows != [] {
      var n := |rows| - 1;
      WithoutExact(rows[..n], gone);
      assert rows == rows[..n] + [rows[n]];
    }
  }

  /** After a class change exactly the entries the class can learn are left; with `keep`, or without an entry
      index, all of them are. */
  lemma ClassChangePrunes(d: Data, s: State, c: nat, keep: bool)
    requires c != s.classByte
    ensures var s' := Reclassed(d, s, c, keep);
            && s'.classByte == c
            && (forall r :: r in s'.book.known <==>
                  r in s.book.known && (keep || d.index == [] || KindOf(d, r.id) in Playable(d.types, c)))
  {
    hide Sync, Post, EssenceRows, Playable, KindOf, Grants, ById;
    var gone := Unlearnable(d, s.book.known, c);
    var known := if gone == {} || keep then s.book.known else Without(ById(s.book.known), gone);
    var b0 := s.book.(known := known);
    var b1 := Post(b0, [ClassByte(c)]);
    var b2 := Post(b1, EssenceRows(d.essence));
    PostKeeps(b0, [ClassByte(c)]);
    PostKeeps(b1, EssenceRows(d.essence));
    SeenKnown(d, b2);
    SameRows(s.book.known);
    WithoutExact(ById(s.book.known), gone);
    forall r | r in s.book.known
      ensures r.id in gone <==> d.index != [] && KindOf(d, r.id) !in Playable(d.types, c)
    {
      assert r.id in Unlearnable(d, s.book.known, c) <==> d.index != [] && KindOf(d, r.id) !in Playable(d.types, c);
    }
  }

}
