/** The spellbook cache: what a character's learned entries grant, what its client was last told, and the
    differences that are sent to close the gap. */
module Spellbook {
  import opened Bytes
  import opened Ordering

  const MAX_BUTTONS: nat := 144
  const ACTION_SPAN: nat := 0x100_0000

  datatype Row = Row(id: int, rank: int)

  /** One exported entry: its five spell columns (0 for none), its class type and its tab. */
  datatype Entry = Entry(links: seq<nat>, kind: nat, tab: nat)

  datatype ClassType = ClassType(name: nat, required: nat, classic: bool, custom: bool)

  /** The read-only tables: entries by id and their ids in file order, which spells are passive, class types,
      and the number of essence rows. */
  datatype Data =
    Data(entries: map<int, Entry>, index: seq<int>, passive: map<nat, bool>, types: seq<ClassType>, essence: nat)

  // ---- what entries grant -----------------------------------------------------------

  function Chain(links: seq<nat>): (c: seq<nat>)
    ensures forall i | 0 <= i < |c| :: c[i] != 0
  {
    if links == [] then [] else (if links[0] != 0 then [links[0]] else []) + Chain(links[1..])
  }

  /** `ca_entry_spell`, and None for a spell the client's table does not hold. */
  function Granted(d: Data, r: Row): Option<nat> {
    if r.id !in d.entries then None
    else
      var c := Chain(d.entries[r.id].links);
      if c == [] then None
      else
        var spell := c[Clamp(r.rank, |c|) - 1];
        if spell in d.passive then Some(spell) else None
  }

  function Clamp(rank: int, n: nat): (k: nat)
    requires n > 0
    ensures 1 <= k <= n
  {
    if rank < 1 then 1 else if rank > n then n else rank
  }

  /** The simple thing the cache must agree with. */
  function Grants(d: Data, rows: seq<Row>): set<nat> {
    set r | r in rows && Granted(d, r).Some? :: Granted(d, r).value
  }

  /** `ca_known_spells`: each spell once, where its first entry stands. */
  function KnownSpells(d: Data, rows: seq<Row>): seq<nat>
    decreases |rows|
  {
    if rows == [] then []
    else
      var n := |rows| - 1;
      var out := KnownSpells(d, rows[..n]);
      match Granted(d, rows[n])
      case None => out
      case Some(spell) => if spell in out then out else out + [spell]
  }

  ghost predicate Distinct(s: seq<nat>) {
    forall i, j | 0 <= i < j < |s| :: s[i] != s[j]
  }

  lemma {:induction false} KnownSpellsExact(d: Data, rows: seq<Row>)
    ensures Members(KnownSpells(d, rows)) == Grants(d, rows)
    ensures Distinct(KnownSpells(d, rows))
    decreases |rows|
  {
    if rows != [] {
      var n := |rows| - 1;
      KnownSpellsExact(d, rows[..n]);
      assert rows == rows[..n] + [rows[n]];
      assert Grants(d, rows) == Grants(d, rows[..n]) + Grants(d, [rows[n]]);
      assert rows[n] in [rows[n]];
    }
  }

  // ---- stored rows --------------------------------------------------------------------

  predicate NotAfter(q: Row, r: Row) {
    q.id <= r.id
  }

  /** The stable sort by id that every reader of the stored rows applies. */
  function ById(rows: seq<Row>): seq<Row> {
    SortBy(rows, NotAfter)
  }

  ghost predicate Sorted(rows: seq<Row>) {
    forall i, j | 0 <= i < j < |rows| :: rows[i].id <= rows[j].id
  }

  lemma ByIdSorts(rows: seq<Row>)
    ensures Sorted(ById(rows)) && multiset(ById(rows)) == multiset(rows)
  {
    SortOrders(rows, NotAfter);
    SortPermutes(rows, NotAfter);
    var s := ById(rows);
    forall i, j | 0 <= i < j < |s| ensures s[i].id <= s[j].id {
      assert NotAfter(s[i], s[j]);
    }
  }

  lemma GrantsById(d: Data, rows: seq<Row>)
    ensures Grants(d, ById(rows)) == Grants(d, rows)
    ensures Members(KnownSpells(d, ById(rows))) == Grants(d, rows)
  {
    hide Granted, KnownSpells, ById;
    SameRows(rows);
    KnownSpellsExact(d, ById(rows));
  }

  lemma SameRows(rows: seq<Row>)
    ensures forall r :: r in ById(rows) <==> r in rows
  {
    hide ById;
    ByIdSorts(rows);
    forall r ensures r in ById(rows) <==> r in rows {
      assert r in multiset(ById(rows)) <==> r in multiset(rows);
    }
  }

  // ---- the wire -------------------------------------------------------------------------

  datatype Packet =
    | Entered
    | Spells(ids: seq<nat>)
    | Unlearn
    | Buttons(layout: map<nat, nat>)
    | Learned(id: nat)
    | Removed(id: nat)
    | Spec
    | Essence(row: nat)
    | Known(rows: seq<Row>)
    | Active(build: string)
    | Result(ok: bool)
    | ClassByte(value: nat)

  /** A packet, and the rows that were stored when it was sent. */
  datatype Sent = Sent(packet: Packet, known: seq<Row>)

  /** The spells of a client that assigns on the bulk packet and edits on the incremental ones. */
  function Client(log: seq<Sent>): set<nat>
    decreases |log|
  {
    if log == [] then {}
    else Told(Client(log[..|log| - 1]), log[|log| - 1].packet)
  }

  function Told(spells: set<nat>, p: Packet): set<nat> {
    match p
    case Spells(ids) => Members(ids)
    case Learned(id) => spells + {id}
    case Removed(id) => spells - {id}
    case _ => spells
  }

  /** Packets that leave the client's spells alone. */
  predicate Spellless(p: Packet) {
    !p.Spells? && !p.Learned? && !p.Removed?
  }

  function Stamped(ps: seq<Packet>, known: seq<Row>): (s: seq<Sent>)
    ensures |s| == |ps|
  {
    seq(|ps|, i requires 0 <= i < |ps| => Sent(ps[i], known))
  }

  function LearnAll(ids: seq<nat>): (ps: seq<Packet>)
    ensures |ps| == |ids|
  {
    seq(|ids|, i requires 0 <= i < |ids| => Learned(ids[i]))
  }

  function RemoveAll(ids: seq<nat>): (ps: seq<Packet>)
    ensures |ps| == |ids|
  {
    seq(|ids|, i requires 0 <= i < |ids| => Removed(ids[i]))
  }

  lemma ClientOne(log: seq<Sent>, e: Sent)
    ensures Client(log + [e]) == Told(Client(log), e.packet)
  {
    assert (log + [e])[..|log|] == log;
  }

  lemma LearnsSplit(log: seq<Sent>, ids: seq<nat>, known: seq<Row>, n: nat)
    requires |ids| == n + 1
    ensures log + Stamped(LearnAll(ids), known)
         == log + Stamped(LearnAll(ids[..n]), known) + [Sent(Learned(ids[n]), known)]
  {}

  lemma RemovesSplit(log: seq<Sent>, ids: seq<nat>, known: seq<Row>, n: nat)
    requires |ids| == n + 1
    ensures log + Stamped(RemoveAll(ids), known)
         == log + Stamped(RemoveAll(ids[..n]), known) + [Sent(Removed(ids[n]), known)]
  {}

  lemma {:induction false} ClientLearns(log: seq<Sent>, ids: seq<nat>, known: seq<Row>)
    ensures Client(log + Stamped(LearnAll(ids), known)) == Client(log) + Members(ids)
    decreases |ids|
  {
    hide Client;
    if ids == [] {
      assert log + Stamped(LearnAll(ids), known) == log;
    } else {
      hide Stamped, LearnAll;
      var n := |ids| - 1;
      ClientLearns(log, ids[..n], known);
      LearnsSplit(log, ids, known, n);
      ClientOne(log + Stamped(LearnAll(ids[..n]), known), Sent(Learned(ids[n]), known));
      assert ids == ids[..n] + [ids[n]];
    }
  }

  lemma {:induction false} ClientRemoves(log: seq<Sent>, ids: seq<nat>, known: seq<Row>)
    ensures Client(log + Stamped(RemoveAll(ids), known)) == Client(log) - Members(ids)
    decreases |ids|
  {
    hide Client;
    if ids == [] {
      assert log + Stamped(RemoveAll(ids), known) == log;
    } else {
      hide Stamped, RemoveAll;
      var n := |ids| - 1;
      ClientRemoves(log, ids[..n], known);
      RemovesSplit(log, ids, known, n);
      ClientOne(log + Stamped(RemoveAll(ids[..n]), known), Sent(Removed(ids[n]), known));
      assert ids == ids[..n] + [ids[n]];
    }
  }

  // ---- the action bars ----------------------------------------------------------------

  predicate IsSpellButton(packed: nat) {
    packed / ACTION_SPAN == 0
  }

  function Action(packed: nat): nat {
    packed % ACTION_SPAN
  }

  predicate Points(packed: nat, spells: set<nat>) {
    IsSpellButton(packed) && Action(packed) in spells
  }

  function Unbound(bars: map<nat, nat>, removed: set<nat>): map<nat, nat> {
    map s | s in bars && !Points(bars[s], removed) :: bars[s]
  }

  /** `bars_autofill`: the castable spells laid out from slot 0. */
  function Autofill(d: Data, spells: seq<nat>): map<nat, nat>
    decreases |spells|
  {
    if spells == [] then map[]
    else
      var n := |spells| - 1;
      var m := Autofill(d, spells[..n]);
      if Castable(d, spells[n]) && |m| < MAX_BUTTONS then m[|m| := spells[n]] else m
  }

  predicate Castable(d: Data, spell: nat) {
    !(spell in d.passive && d.passive[spell]) && spell < ACTION_SPAN
  }

  /** Every spell button names one of these spells. */
  ghost predicate ButtonsKnown(bars: map<nat, nat>, spells: set<nat>) {
    forall s | s in bars :: IsSpellButton(bars[s]) ==> Action(bars[s]) in spells
  }

  /** Slots 0, 1, 2, ... without a gap, each naming a castable one of these spells. */
  ghost predicate LaidOut(d: Data, m: map<nat, nat>, spells: seq<nat>) {
    && |m| <= MAX_BUTTONS
    && (forall s :: s in m <==> 0 <= s < |m|)
    && (forall s | s in m :: m[s] in spells && Castable(d, m[s]))
  }

  lemma {:induction false} AutofillLaysOut(d: Data, spells: seq<nat>)
    ensures LaidOut(d, Autofill(d, spells), spells)
    decreases |spells|
  {
    if spells != [] {
      var n := |spells| - 1;
      AutofillLaysOut(d, spells[..n]);
      LayOne(d, Autofill(d, spells[..n]), spells[..n], spells[n]);
      assert spells == spells[..n] + [spells[n]];
    }
  }

  lemma LayOne(d: Data, m: map<nat, nat>, spells: seq<nat>, spell: nat)
    requires LaidOut(d, m, spells)
    ensures LaidOut(d, m, spells + [spell])
    ensures Castable(d, spell) && |m| < MAX_BUTTONS ==> LaidOut(d, m[|m| := spell], spells + [spell])
  {
    hide Castable;
    NewKey(m, |m|, spell);
    assert spell in spells + [spell] && forall x | x in spells :: x in spells + [spell];
  }

  lemma NewKey(m: map<nat, nat>, k: nat, v: nat)
    requires k !in m
    ensures |m[k := v]| == |m| + 1
  {
    assert m[k := v].Keys == m.Keys + {k};
  }

  lemma AutofillKnown(d: Data, spells: seq<nat>)
    ensures ButtonsKnown(Autofill(d, spells), Members(spells))
  {
    AutofillLaysOut(d, spells);
  }

  // ---- the cache ------------------------------------------------------------------------

  /** One character: stored rows, the watermark of what its client was told, its saved bars, the wire. */
  datatype Book = Book(known: seq<Row>, sent: Option<set<nat>>, bars: map<nat, nat>, log: seq<Sent>)

  function Post(b: Book, ps: seq<Packet>): Book {
    b.(log := b.log + Stamped(ps, b.known))
  }

  function Spellset(d: Data, b: Book): seq<nat> {
    KnownSpells(d, ById(b.known))
  }

  /** `smsg_action_buttons`: an empty layout is seeded first. */
  function SendButtons(d: Data, b: Book): Book {
    var layout := if b.bars == map[] then Autofill(d, Spellset(d, b)) else b.bars;
    Post(b.(bars := layout), [Buttons(OnBar(layout))])
  }

  function OnBar(layout: map<nat, nat>): map<nat, nat> {
    map s | s in layout && s < MAX_BUTTONS :: layout[s]
  }

  /** `send_spellbook`. */
  function SendBook(d: Data, b: Book): Book {
    var b1 := SendButtons(d, Post(b, [Spells(Spellset(d, b)), Unlearn]));
    b1.(sent := Some(Grants(d, b.known)))
  }

  function Was(b: Book): set<nat> {
    if b.sent.Some? then b.sent.value else {}
  }

  /** `sync_spellbook`. */
  function Sync(d: Data, b: Book): Book {
    var now, was := Grants(d, b.known), Was(b);
    var b1 := Post(b, LearnAll(Ascending(now - was)) + RemoveAll(Ascending(was - now)));
    var b2 := b1.(bars := Unbound(b.bars, was - now));
    var b3 := if now == was then b2 else SendButtons(d, b2);
    b3.(sent := Some(now))
  }

  /** `send_known_entries`. */
  function SendKnown(d: Data, b: Book): Book {
    Sync(d, Post(b, [Known(ById(b.known))]))
  }

  /** The watermark never claims more than the client holds. */
  ghost predicate Faithful(b: Book) {
    Was(b) <= Client(b.log)
  }

  lemma StampedConcat(a: seq<Packet>, b: seq<Packet>, known: seq<Row>)
    ensures Stamped(a + b, known) == Stamped(a, known) + Stamped(b, known)
  {}

  lemma ClientEdits(log: seq<Sent>, add: set<nat>, drop: set<nat>, known: seq<Row>)
    ensures Client(log + Stamped(LearnAll(Ascending(add)) + RemoveAll(Ascending(drop)), known))
         == Client(log) + add - drop
  {
    hide Client, Stamped, LearnAll, RemoveAll, Ascending;
    var a, b := LearnAll(Ascending(add)), RemoveAll(Ascending(drop));
    StampedConcat(a, b, known);
    assert log + (Stamped(a, known) + Stamped(b, known)) == log + Stamped(a, known) + Stamped(b, known);
    ClientLearns(log, Ascending(add), known);
    ClientRemoves(log + Stamped(a, known), Ascending(drop), known);
  }

  lemma ClientButtons(d: Data, b: Book)
    ensures Client(SendButtons(d, b).log) == Client(b.log)
  {
    hide Autofill, Spellset;
    var layout := SendButtons(d, b).bars;
    assert Stamped([Buttons(OnBar(layout))], b.known) == [Sent(Buttons(OnBar(layout)), b.known)];
    ClientOne(b.log, Sent(Buttons(OnBar(layout)), b.known));
  }

  /** What a synchronisation does to the client, whatever the watermark was: it forgets what the watermark
      had and the rows no longer grant, and learns all that they do. */
  lemma SyncTells(d: Data, b: Book)
    requires Faithful(b)
    ensures var b', now := Sync(d, b), Grants(d, b.known);
            && b'.known == b.known && b'.sent == Some(now)
            && Client(b'.log) == (Client(b.log) - (Was(b) - now)) + now
  {
    hide Client, Stamped, LearnAll, RemoveAll, Ascending, Grants, SendButtons;
    var now, was := Grants(d, b.known), Was(b);
    ClientEdits(b.log, now - was, was - now, b.known);
    var b2 := Post(b, LearnAll(Ascending(now - was)) + RemoveAll(Ascending(was - now)))
              .(bars := Unbound(b.bars, was - now));
    ClientButtons(d, b2);
    ButtonsKeep(d, b2);
  }

  lemma ButtonsKeep(d: Data, b: Book)
    ensures SendButtons(d, b).known == b.known && SendButtons(d, b).sent == b.sent
  {}

  /** The client ends with exactly the granted spells if and only if it held no other spell that the
      watermark had lost track of. In particular it does whenever the watermark was its true spell set. */
  lemma SyncExact(d: Data, b: Book)
    requires Faithful(b)
    ensures var now := Grants(d, b.known);
            && now <= Client(Sync(d, b).log)
            && (Client(Sync(d, b).log) == now <==> Client(b.log) - Was(b) <= now)
            && (b.sent == Some(Client(b.log)) ==> Client(Sync(d, b).log) == now)
    ensures Faithful(Sync(d, b))
  {
    hide Client, Sync, Grants;
    SyncTells(d, b);
  }

  /** A second synchronisation with the same rows sends nothing and changes nothing. */
  lemma SyncTwice(d: Data, b: Book)
    ensures Sync(d, Sync(d, b)) == Sync(d, b)
  {
    hide Stamped, SendButtons, Grants;
    var b1 := Sync(d, b);
    SyncState(d, b);
    assert Ascending({}) == [];
    assert LearnAll([]) + RemoveAll([]) == [];
    assert b1.log + Stamped([], b1.known) == b1.log;
    assert Unbound(b1.bars, {}) == b1.bars;
  }

  lemma SyncState(d: Data, b: Book)
    ensures Sync(d, b).known == b.known && Sync(d, b).sent == Some(Grants(d, b.known))
  {
    hide Grants, Ascending, LearnAll, RemoveAll, SendButtons, Stamped;
    var now, was := Grants(d, b.known), Was(b);
    ButtonsKeep(d, Post(b, LearnAll(Ascending(now - was)) + RemoveAll(Ascending(was - now)))
                   .(bars := Unbound(b.bars, was - now)));
  }

  /** Exactly the spell buttons of removed spells are unbound; every other slot keeps its value, unless the
      whole layout is empty and is seeded. */
  lemma SyncBars(d: Data, b: Book)
    ensures var now, gone := Grants(d, b.known), Was(b) - Grants(d, b.known);
            var bars, bars' := b.bars, Sync(d, b).bars;
            if now != Was(b) && Unbound(bars, gone) == map[] then bars' == Autofill(d, Spellset(d, b))
            else Untouched(bars, gone, bars')
  {
    hide Stamped, Ascending, LearnAll, RemoveAll, Grants, Autofill, Spellset;
    var now, was := Grants(d, b.known), Was(b);
    var b2 := Post(b, LearnAll(Ascending(now - was)) + RemoveAll(Ascending(was - now)))
              .(
      bars := Unbound(b.bars, was - now));
    assert Spellset(d, b2) == Spellset(d, b) by { SpellsetOf(d, b, b2); }
  }

  /** `bars'` is `bars` without the buttons that point at a spell of `gone`. */
  ghost predicate Untouched(bars: map<nat, nat>, gone: set<nat>, bars': map<nat, nat>) {
    && (forall s :: s in bars' <==> (s in bars && !Points(bars[s], gone)))
    && (forall s | s in bars' :: bars'[s] == bars[s])
  }

  lemma SpellsetOf(d: Data, a: Book, b: Book)
    requires a.known == b.known
    ensures Spellset(d, a) == Spellset(d, b)
  {}

  /** Buttons that named the client's spells name the granted spells afterwards. */
  lemma SyncButtonsKnown(d: Data, b: Book)
    requires b.sent.Some? && ButtonsKnown(b.bars, b.sent.value)
    ensures ButtonsKnown(Sync(d, b).bars, Grants(d, b.known))
  {
    hide Grants, Autofill, Sync, Unbound, Spellset;
    var now := Grants(d, b.known);
    SyncBars(d, b);
    SeededKnown(d, b);
    var bars' := Sync(d, b).bars;
    if !(now != Was(b) && Unbound(b.bars, Was(b) - now) == map[]) {
      forall s | s in bars' && IsSpellButton(bars'[s]) ensures Action(bars'[s]) in now {
        assert Action(b.bars[s]) in b.sent.value;
      }
    }
  }

  /** Whatever the watermark, buttons that name the client's spells still do. */
  lemma SyncKeepsLive(d: Data, b: Book)
    requires Faithful(b) && ButtonsKnown(b.bars, Client(b.log))
    ensures ButtonsKnown(Sync(d, b).bars, Client(Sync(d, b).log))
  {
    hide Grants, Autofill, Sync, Unbound, Spellset, Client;
    SyncTells(d, b);
    SyncBars(d, b);
    SeededKnown(d, b);
  }

  lemma SeededKnown(d: Data, b: Book)
    ensures ButtonsKnown(Autofill(d, Spellset(d, b)), Grants(d, b.known))
  {
    hide Grants, Autofill, KnownSpells;
    AutofillKnown(d, Spellset(d, b));
    GrantsById(d, b.known);
  }

  /** The tables the server keeps for one character, updated in place. */
  class Keeper {
    const data: Data
    var known: seq<Row>
    var sent: Option<set<nat>>
    var bars: map<nat, nat>
    var log: seq<Sent>

    constructor (data: Data, known: seq<Row>, bars: map<nat, nat>)
      ensures this.data == data && Value() == Book(known, None, bars, [])
    {
      this.data, this.known, sent, this.bars, log := data, known, None, bars, [];
    }

    function Value(): Book
      reads this
    {
      Book(known, sent, bars, log)
    }

    method Send(p: Packet)
      modifies this`log
      ensures Value() == Post(old(Value()), [p])
    {
      assert Stamped([p], known) == [Sent(p, known)];
      log := log + [Sent(p, known)];
    }

    /** `ca_known_spells`: what is granted, without repetition. */
    method Resolve() returns (out: seq<nat>)
      ensures out == Spellset(data, Value())
      ensures Members(out) == Grants(data, known) && Distinct(out)
    {
      hide Granted, ById, Grants;
      var rows := ById(known);
      out := [];
      for i := 0 to |rows|
        invariant out == KnownSpells(data, rows[..i])
      {
        assert rows[..i + 1][..i] == rows[..i];
        var g := Granted(data, rows[i]);
        if g.Some? && g.value !in out {
          out := out + [g.value];
        }
      }
      assert rows[..|rows|] == rows;
      GrantsById(data, known);
      KnownSpellsExact(data, rows);
    }

    /** `bars_autofill`. */
    method Layout() returns (out: map<nat, nat>)
      ensures out == Autofill(data, Spellset(data, Value()))
      ensures LaidOut(data, out, Spellset(data, Value()))
    {
      hide LaidOut, Spellset, Castable, Distinct, Grants;
      var spells := Resolve();
      out := map[];
      assert spells[..0] == [];
      AutofillLaysOut(data, []);
      var n := 0;
      for i := 0 to |spells|
        invariant out == Autofill(data, spells[..i]) && n == |out|
        invariant LaidOut(data, out, spells[..i])
      {
        assert spells[..i + 1][..i] == spells[..i];
        AutofillLaysOut(data, spells[..i + 1]);
        FreshSlot(data, out, spells[..i]);
        if Castable(data, spells[i]) && n < MAX_BUTTONS {
          NewKey(out, n, spells[i]);
          out, n := out[n := spells[i]], n + 1;
        }
      }
      assert spells[..|spells|] == spells;
    }

    /** `smsg_action_buttons`, sent. */
    method SendBars()
      modifies this`bars, this`log
      ensures Value() == SendButtons(data, old(Value()))
    {
      hide Spellset, Autofill, OnBar;
      if bars == map[] {
        bars := Layout();
      }
      Send(Buttons(OnBar(bars)));
    }

    /** `send_spellbook`. */
    method SendSpellbook()
      modifies this`sent, this`bars, this`log
      ensures Value() == SendBook(data, old(Value()))
    {
      hide Spellset, SendButtons, Stamped, Grants;
      var spells := Resolve();
      PostTwo(Value(), Spells(spells), Unlearn);
      Send(Spells(spells));
      Send(Unlearn);
      SpellsetOf(data, old(Value()), Value());
      SendBars();
      sent := Some(Members(spells));
    }

    /** `sync_spellbook`: one packet per difference, and stale buttons unbound. */
    method SyncSpellbook()
      modifies this`sent, this`bars, this`log
      ensures Value() == Sync(data, old(Value()))
    {
      hide SendButtons, Grants, Ascending, Post, LearnAll, RemoveAll;
      var spells := Resolve();
      var now, was := Members(spells), if sent.Some? then sent.value else {};
      var add, drop := Ascending(now - was), Ascending(was - now);
      SendLearned(add);
      SendRemoved(drop);
      PostConcat(old(Value()), LearnAll(add), RemoveAll(drop));
      Unbind(was - now);
      if now != was {
        SendBars();
      }
      sent := Some(now);
    }

    method SendLearned(add: seq<nat>)
      modifies this`log
      ensures Value() == Post(old(Value()), LearnAll(add))
    {
      for i := 0 to |add|
        invariant log == old(log) + Stamped(LearnAll(add[..i]), known)
      {
        LearnsSplit(old(log), add[..i + 1], known, i);
        assert add[..i + 1][..i] == add[..i];
        Send(Learned(add[i]));
      }
      assert add[..|add|] == add;
    }

    method SendRemoved(drop: seq<nat>)
      modifies this`log
      ensures Value() == Post(old(Value()), RemoveAll(drop))
    {
      for i := 0 to |drop|
        invariant log == old(log) + Stamped(RemoveAll(drop[..i]), known)
      {
        RemovesSplit(old(log), drop[..i + 1], known, i);
        assert drop[..i + 1][..i] == drop[..i];
        Send(Removed(drop[i]));
      }
      assert drop[..|drop|] == drop;
    }

    /** The stale slots are collected first and cleared after. */
    method Unbind(removed: set<nat>)
      modifies this`bars
      ensures bars == Unbound(old(bars), removed)
    {
      var stale := set s | s in bars && Points(bars[s], removed);
      var todo := stale;
      while todo != {}
        invariant todo <= stale && bars == old(bars) - (stale - todo)
        decreases todo
      {
        var s :| s in todo;
        bars := bars - {s};
        todo := todo - {s};
      }
    }

    /** `send_known_entries`. */
    method SendKnownEntries() returns (count: nat)
      modifies this`sent, this`bars, this`log
      ensures Value() == SendKnown(data, old(Value())) && count == |known|
    {
      hide Sync, Stamped, Sorted;
      var rows := ById(known);
      SameLength(known);
      Send(Known(rows));
      SyncSpellbook();
      count := |rows|;
      SyncState(data, Post(old(Value()), [Known(rows)]));
    }
  }

  lemma SameLength(rows: seq<Row>)
    ensures |ById(rows)| == |rows|
  {
    ByIdSorts(rows);
    assert |multiset(ById(rows))| == |multiset(rows)|;
  }

  lemma PostConcat(b: Book, ps: seq<Packet>, qs: seq<Packet>)
    ensures Post(Post(b, ps), qs) == Post(b, ps + qs)
    ensures Post(b, ps + qs).bars == b.bars && Post(b, ps + qs).known == b.known && Post(b, ps + qs).sent == b.sent
  {
    StampedConcat(ps, qs, b.known);
    assert b.log + Stamped(ps, b.known) + Stamped(qs, b.known) == b.log + (Stamped(ps, b.known) + Stamped(qs, b.known));
  }

  lemma PostTwo(b: Book, p: Packet, q: Packet)
    ensures Post(Post(b, [p]), [q]) == Post(b, [p, q])
  {
    assert b.log + Stamped([p], b.known) + Stamped([q], b.known) == b.log + Stamped([p, q], b.known);
  }

  lemma FreshSlot(d: Data, m: map<nat, nat>, spells: seq<nat>)
    requires LaidOut(d, m, spells)
    ensures |m| !in m
  {}
}
