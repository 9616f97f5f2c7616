/** Laws of whole runs: the client's spells and bars against what the stored rows grant. */
module SpellCache {
  import opened Bytes
  import opened Ordering
  import opened Spellbook
  import opened Advancement

  // ---- laws of runs: the spellbook cache ----------------------------------------------------------

  /** While in the world, the watermark, the client's spells and the granted spells are one set. */
  ghost predicate Agrees(d: Data, s: State) {
    s.inWorld ==> s.book.sent == Some(Grants(d, s.book.known)) && Client(s.book.log) == Grants(d, s.book.known)
  }

  /** An activation that drops the watermark and waits for the block. */
  predicate Defers(s: State, e: Event) {
    Accepts(s, e) && s.pending.Some?
  }

  lemma {:induction false} ClientSpellless(b: Book, ps: seq<Packet>)
    requires forall p | p in ps :: Spellless(p)
    ensures Client(Post(b, ps).log) == Client(b.log)
    decreases |ps|
  {
    hide Client;
    if ps == [] {
      assert Post(b, ps).log == b.log;
    } else {
      var n := |ps| - 1;
      ClientSpellless(b, ps[..n]);
      PostSplit(b, ps, n);
      assert Spellless(ps[n]);
      var b1 := Post(b, ps[..n]);
      assert Post(b1, [ps[n]]).log == b1.log + [Sent(ps[n], b1.known)];
      ClientOne(b1.log, Sent(ps[n], b1.known));
    }
  }

  lemma ClientKnown(d: Data, b: Book)
    requires Faithful(b)
    ensures var b' := SendKnown(d, b);
            b'.known == b.known && Synced(d, b, b')
  {
    hide Client, Grants, Sync, ButtonsKnown;
    var b1 := Post(b, [Known(ById(b.known))]);
    PostSpellless(b, [Known(ById(b.known))]);
    SyncTells(d, b1);
    if ButtonsKnown(b.bars, Client(b.log)) {
      SyncKeepsLive(d, b1);
    }
  }

  lemma ClientBook(d: Data, b: Book)
    ensures var b' := SendBook(d, b);
            b'.known == b.known && b'.sent == Some(Grants(d, b.known)) && Client(b'.log) == Grants(d, b.known)
  {
    hide Client, Grants, SendButtons, Spellset;
    var ids := Spellset(d, b);
    var b1 := Post(b, [Spells(ids)]);
    assert b1.log == b.log + [Sent(Spells(ids), b.known)];
    ClientOne(b.log, Sent(Spells(ids), b.known));
    SpellsetGrants(d, b);
    ClientSpellless(b1, [Unlearn]);
    PostTwo(b, Spells(ids), Unlearn);
    var b2 := Post(b, [Spells(ids), Unlearn]);
    ClientButtons(d, b2);
    ButtonsKeep(d, b2);
  }

  lemma SpellsetGrants(d: Data, b: Book)
    ensures Members(Spellset(d, b)) == Grants(d, b.known)
  {
    GrantsById(d, b.known);
  }

  /** What every in-world step keeps of the watermark: it is faithful, and it is the granted set unless an
      activation is still waiting for a block that carries the known entries. */
  ghost predicate Covered(d: Data, m: Mode, s: State) {
    s.inWorld ==>
      && Faithful(s.book)
      && (s.book.sent.Some? ==> s.book.sent.value == Grants(d, s.book.known))
      && (s.book.sent.None? ==> s.pending.Some? || m == BudgetOnly || m == NoBlock)
  }

  lemma LoginCovers(d: Data, m: Mode, s: State, now: int)
    ensures var s' := Step(d, m, s, Login(now)); Agrees(d, s') && Covered(d, m, s')
  {
    hide Client, Grants, SendBook, Post;
    ClientBook(d, Post(s.book, [Entered]));
  }

  /** A book step that only sends packets without spells. */
  ghost predicate Kept(b: Book, b': Book) {
    b'.known == b.known && b'.sent == b.sent && b'.bars == b.bars && Client(b'.log) == Client(b.log)
  }

  /** A book step that synchronises: the client forgets what the watermark had and the rows no longer grant, and
      learns all that they do; buttons that named its spells still do. */
  ghost predicate Synced(d: Data, b: Book, b': Book) {
    var now := Grants(d, b'.known);
    && b'.sent == Some(now)
    && Client(b'.log) == (Client(b.log) - (Was(b) - now)) + now
    && (ButtonsKnown(b.bars, Client(b.log)) ==> ButtonsKnown(b'.bars, Client(b'.log)))
  }

  lemma FlushSyncs(d: Data, m: Mode, s: State)
    requires Faithful(s.book)
    ensures if m == NoBlock || m == BudgetOnly then Kept(s.book, Flush(d, m, s).book)
            else Synced(d, s.book, Flush(d, m, s).book)
    ensures Flush(d, m, s).book.known == s.book.known
  {
    hide ButtonsKnown, Client, Grants, SendKnown, EssenceRows, Post;
    if m != NoBlock {
      var b0 := Post(s.book, [Spec]);
      PostSpellless(s.book, [Spec]);
      var b1 := if m == KnownOnly then b0 else Post(b0, EssenceRows(d.essence));
      EssenceSpellless(b0, d.essence);
      var b2 := if m == BudgetOnly then b1 else SendKnown(d, b1);
      ClientKnown(d, b1);
      var b3 := if s.active != "" then Post(b2, [Active(s.active)]) else b2;
      PostSpellless(b2, [Active(s.active)]);
      PostSpellless(b3, [Result(true)]);
    }
  }

  lemma PostSpellless(b: Book, ps: seq<Packet>)
    requires forall p | p in ps :: Spellless(p)
    ensures Kept(b, Post(b, ps))
  {
    hide Client;
    ClientSpellless(b, ps);
  }

  lemma EssenceSpellless(b: Book, n: nat)
    ensures Kept(b, Post(b, EssenceRows(n)))
  {
    hide Client;
    PostSpellless(b, EssenceRows(n));
  }

  lemma ActivatedSyncs(d: Data, s: State, id: string)
    requires Faithful(s.book)
    ensures var b' := Activated(d, s, id).book;
            if s.pending.None? then Synced(d, s.book, b')
            else if id !in s.builds then Kept(s.book, b')
            else b' == s.book.(known := ById(s.builds[id]), sent := None)
  {
    hide ButtonsKnown, Client, Grants, SendKnown, Post;
    if s.pending.Some? {
      PostSpellless(s.book, [Result(false)]);
    } else if id !in s.builds {
      ClientKnown(d, s.book);
      PostSpellless(SendKnown(d, s.book), [Result(false)]);
    } else {
      var b0 := s.book.(known := ById(s.builds[id]));
      ClientKnown(d, b0);
      var b := SendKnown(d, b0);
      PostSpellless(b, [Active(id)]);
      PostSpellless(Post(b, [Active(id)]), [Result(true)]);
    }
  }

  lemma ReclassedSyncs(d: Data, s: State, c: nat, keep: bool)
    requires Faithful(s.book)
    ensures var b' := Reclassed(d, s, c, keep).book;
            if c == s.classByte then b' == s.book else Synced(d, s.book, b')
  {
    hide ButtonsKnown, Client, Grants, SendKnown, Post, EssenceRows, Unlearnable, Without;
    if c != s.classByte {
      var gone := Unlearnable(d, s.book.known, c);
      var known := if gone == {} || keep then s.book.known else Without(ById(s.book.known), gone);
      var b0 := s.book.(known := known);
      PostSpellless(b0, [ClassByte(c)]);
      EssenceSpellless(Post(b0, [ClassByte(c)]), d.essence);
      ClientKnown(d, Post(Post(b0, [ClassByte(c)]), EssenceRows(d.essence)));
    }
  }

  lemma StoreSyncs(d: Data, s: State, rows: seq<Row>)
    requires Faithful(s.book)
    ensures Synced(d, s.book, Store(d, s, rows).book)
  {
    hide ButtonsKnown, Client, Grants, SendKnown;
    ClientKnown(d, s.book.(known := rows));
  }

  /** The events that synchronise: the block, where it carries the known entries, and every edit that shows
      them. */
  predicate Syncs(d: Data, m: Mode, s: State, e: Event) {
    (Flushes(s, e) && (m == Full || m == KnownOnly)) || Shows(d, s, e)
  }

  /** Every in-world step but a deferral synchronises, or keeps the watermark and the client; and then only a
      button packet moves the bars. */
  lemma StepSyncs(d: Data, m: Mode, s: State, e: Event)
    requires s.inWorld && !e.Login? && Faithful(s.book) && !Defers(s, e)
    ensures var b' := Step(d, m, s, e).book;
            if Syncs(d, m, s, e) then Synced(d, s.book, b')
            else if e.SetButton? then b' == s.book.(bars := Bound(s.book.bars, e.slot, e.packed))
            else Kept(s.book, b')
  {
    hide Kept, Synced, Store, Flush, Activated, Reclassed, Edited, Faithful, Bound, Post, EssenceRows;
    NoFlush(s, e);
    NoEdit(d, s, e);
    FlushSyncs(d, m, s);
    KeptSame(s.book);
    if e.Activate? {
      ActivatedSyncs(d, s, e.build);
    } else if e.ChangeClass? {
      ReclassedSyncs(d, s, e.to, e.keep);
    } else if IsEdit(e) {
      var rows := Edited(d, s, e);
      if rows.Some? {
        StoreSyncs(d, s, rows.value);
      }
    } else {
      EssenceSpellless(s.book, d.essence);
    }
  }

  lemma KeptSame(b: Book)
    ensures Kept(b, b)
  {}

  lemma StepAgrees(d: Data, m: Mode, s: State, e: Event)
    requires Agrees(d, s) && !Defers(s, e)
    ensures Agrees(d, Step(d, m, s, e))
  {
    hide Step, Client, Grants;
    if e.Login? {
      LoginCovers(d, m, s, e.now);
    } else if s.inWorld {
      StepSyncs(d, m, s, e);
    } else {
      StepFields(d, m, s, e);
    }
  }

  lemma StepCovered(d: Data, m: Mode, s: State, e: Event)
    requires Covered(d, m, s)
    ensures Covered(d, m, Step(d, m, s, e))
  {
    hide Step, Client, Grants;
    StepFields(d, m, s, e);
    if e.Login? {
      LoginCovers(d, m, s, e.now);
    } else if s.inWorld {
      if Defers(s, e) {
        DeferStep(d, m, s, e);
      } else {
        StepSyncs(d, m, s, e);
      }
    }
  }

  lemma DeferStep(d: Data, m: Mode, s: State, e: Event)
    requires Defers(s, e)
    ensures var s' := Step(d, m, s, e);
            && s'.book == s.book.(known := ById(s.builds[e.build]), sent := None)
            && s'.inWorld && s'.pending == s.pending
  {
    hide ById;
  }

  predicate DefersIn(d: Data, m: Mode, s: State, es: seq<Event>)
    decreases |es|
  {
    es != [] && (Defers(s, es[0]) || DefersIn(d, m, Step(d, m, s, es[0]), es[1..]))
  }

  lemma {:induction false} RunAgrees(d: Data, m: Mode, s: State, es: seq<Event>)
    requires Agrees(d, s) && !DefersIn(d, m, s, es)
    ensures Agrees(d, Run(d, m, s, es))
    decreases |es|
  {
    hide Agrees, Step, Defers;
    if es != [] {
      StepAgrees(d, m, s, es[0]);
      RunAgrees(d, m, Step(d, m, s, es[0]), es[1..]);
    }
  }

  /** Whatever came before, from a world entry on and until an activation is deferred, the client's spells are
      exactly those the stored rows grant. */
  lemma EntryAgrees(d: Data, m: Mode, s: State, now: int, es: seq<Event>)
    requires !DefersIn(d, m, Step(d, m, s, Login(now)), es)
    ensures var s' := Run(d, m, Step(d, m, s, Login(now)), es);
            s'.inWorld ==> Client(s'.book.log) == Grants(d, s'.book.known)
  {
    hide Run, Step, Client, Grants, DefersIn;
    LoginCovers(d, m, s, now);
    RunAgrees(d, m, Step(d, m, s, Login(now)), es);
  }

  lemma {:induction false} RunCovered(d: Data, m: Mode, s: State, es: seq<Event>)
    requires Covered(d, m, s)
    ensures Covered(d, m, Run(d, m, s, es))
    decreases |es|
  {
    hide Covered, Step;
    if es != [] {
      StepCovered(d, m, s, es[0]);
      RunCovered(d, m, Step(d, m, s, es[0]), es[1..]);
    }
  }

  /** Over every run, deferrals included: once no activation is waiting, the client knows every granted spell. */
  lemma ClientNeverLacks(d: Data, m: Mode, s: State, es: seq<Event>)
    requires Fresh(s)
    ensures var s' := Run(d, m, s, es);
            s'.inWorld && (s'.book.sent.Some? || (s'.pending.None? && (m == Full || m == KnownOnly)))
            ==> Grants(d, s'.book.known) <= Client(s'.book.log)
  {
    hide Run, Client, Grants;
    RunCovered(d, m, s, es);
  }

  /** A deferred activation and its block: the client ends with the old spells and the new, so with exactly the
      new ones if and only if the build took nothing away. */
  lemma DeferredActivation(d: Data, m: Mode, s: State, id: string)
    requires Agrees(d, s) && Defers(s, Activate(id)) && (m == Full || m == KnownOnly)
    ensures var s' := Step(d, m, Step(d, m, s, Activate(id)), SetActiveMover);
            var before, after := Grants(d, s.book.known), Grants(d, s'.book.known);
            && s'.book.known == ById(s.builds[id]) && s'.pending.None?
            && after <= Client(s'.book.log)
            && (Client(s'.book.log) == after <==> before <= after)
  {
    hide Step, Client, Grants, Flush, Activated, ById;
    var s1 := Step(d, m, s, Activate(id));
    DeferStep(d, m, s, Activate(id));
    FlushStep(d, m, s1);
    FlushSyncs(d, m, s1);
    FlushFields(d, m, s1);
  }

  /** The spells a client still holds that the watermark has lost track of: a deferral loses all of them, each
      synchronisation finds those it grants again, and a world entry starts clean. */
  function Lost(d: Data, m: Mode, s: State, es: seq<Event>, lost: set<nat>): set<nat>
    decreases |es|
  {
    if es == [] then lost
    else
      var s' := Step(d, m, s, es[0]);
      Lost(d, m, s', es[1..], LostBy(d, m, s, es[0], s', lost))
  }

  function LostBy(d: Data, m: Mode, s: State, e: Event, s': State, lost: set<nat>): set<nat> {
    if e.Login? then {}
    else if !s.inWorld then lost
    else if Defers(s, e) then lost + Was(s.book)
    else if Syncs(d, m, s, e) then lost - Grants(d, s'.book.known)
    else lost
  }

  /** The client's spells are the watermark's and the lost ones. */
  ghost predicate Accounted(s: State, lost: set<nat>) {
    s.inWorld ==> Client(s.book.log) == Was(s.book) + lost && Was(s.book) !! lost
  }

  lemma StepAccounted(d: Data, m: Mode, s: State, e: Event, lost: set<nat>)
    requires Accounted(s, lost)
    ensures Accounted(Step(d, m, s, e), LostBy(d, m, s, e, Step(d, m, s, e), lost))
  {
    hide Step, Client, Grants, Syncs, ButtonsKnown;
    StepFields(d, m, s, e);
    if e.Login? {
      LoginCovers(d, m, s, e.now);
    } else if s.inWorld {
      if Defers(s, e) {
        DeferStep(d, m, s, e);
      } else {
        StepSyncs(d, m, s, e);
      }
    }
  }

  lemma {:induction false} RunAccounted(d: Data, m: Mode, s: State, es: seq<Event>, lost: set<nat>)
    requires Accounted(s, lost)
    ensures Accounted(Run(d, m, s, es), Lost(d, m, s, es, lost))
    decreases |es|
  {
    hide Accounted, Step, LostBy;
    if es != [] {
      var s' := Step(d, m, s, es[0]);
      StepAccounted(d, m, s, es[0], lost);
      RunAccounted(d, m, s', es[1..], LostBy(d, m, s, es[0], s', lost));
    }
  }

  /** Over every run from a server's start, deferrals included: with nothing waiting the client's spells are the
      granted ones and the lost ones, so exactly the granted ones if and only if none is lost. */
  lemma ClientExactly(d: Data, m: Mode, s: State, es: seq<Event>)
    requires Fresh(s)
    ensures var s', lost := Run(d, m, s, es), Lost(d, m, s, es, {});
            s'.inWorld && s'.book.sent.Some? ==>
              var granted := Grants(d, s'.book.known);
              && Client(s'.book.log) == granted + lost && granted !! lost
              && (Client(s'.book.log) == granted <==> lost == {})
  {
    hide Run, Lost, Client, Grants;
    RunAccounted(d, m, s, es, {});
    RunCovered(d, m, s, es);
  }

  // ---- laws of runs: the action bars ------------------------------------------------------------

  /** A client puts only spells it knows on its bars. */
  predicate Fair(s: State, e: Event) {
    e.SetButton? && s.inWorld && e.packed != 0 && IsSpellButton(e.packed) ==> Action(e.packed) in Client(s.book.log)
  }

  ghost predicate FairRun(d: Data, m: Mode, s: State, es: seq<Event>)
    decreases |es|
  {
    es == [] || (Fair(s, es[0]) && FairRun(d, m, Step(d, m, s, es[0]), es[1..]))
  }

  /** While in the world, no button names a spell the client does not know. */
  ghost predicate Live(s: State) {
    s.inWorld ==> ButtonsKnown(s.book.bars, Client(s.book.log))
  }

  lemma BoundKnown(bars: map<nat, nat>, slot: nat, packed: nat, spells: set<nat>)
    requires ButtonsKnown(bars, spells)
    requires packed != 0 && IsSpellButton(packed) ==> Action(packed) in spells
    ensures ButtonsKnown(Bound(bars, slot, packed), spells)
  {
    hide Action, IsSpellButton;
  }

  /** No step of a world entry kills a button, a deferral and its block included. */
  lemma StepLive(d: Data, m: Mode, s: State, e: Event)
    requires Covered(d, m, s) && Live(s) && Fair(s, e) && !e.Login?
    ensures Live(Step(d, m, s, e))
  {
    hide Step, Client, Grants, Syncs, ButtonsKnown, Bound;
    StepFields(d, m, s, e);
    if s.inWorld {
      if Defers(s, e) {
        DeferStep(d, m, s, e);
      } else {
        StepSyncs(d, m, s, e);
        if e.SetButton? {
          BoundKnown(s.book.bars, e.slot, e.packed, Client(s.book.log));
        }
      }
    }
  }

  /** A world entry assigns the client's spells and sends the saved bars as they are: the buttons are live exactly
      if they all name spells the rows grant. */
  lemma LoginLive(d: Data, m: Mode, s: State, now: int)
    ensures var s' := Step(d, m, s, Login(now));
            && s'.inWorld && s'.book.known == s.book.known
            && (Live(s') <==> ButtonsKnown(s.book.bars, Grants(d, s.book.known)))
  {
    hide Client, Grants, Spellset, Autofill;
    var b := Post(s.book, [Entered]);
    var b1 := Post(b, [Spells(Spellset(d, b)), Unlearn]);
    PostKeeps(s.book, [Entered]);
    PostKeeps(b, [Spells(Spellset(d, b)), Unlearn]);
    ClientBook(d, b);
    SeededKnown(d, b1);
  }

  /** Every state of a run is live. */
  ghost predicate AlwaysLive(d: Data, m: Mode, s: State, es: seq<Event>)
    decreases |es|
  {
    Live(s) && (es == [] || AlwaysLive(d, m, Step(d, m, s, es[0]), es[1..]))
  }

  /** At every world entry the saved buttons name only spells that the rows grant. */
  ghost predicate LoginsLive(d: Data, m: Mode, s: State, es: seq<Event>)
    decreases |es|
  {
    es == []
    || ((es[0].Login? ==> ButtonsKnown(s.book.bars, Grants(d, s.book.known)))
        && LoginsLive(d, m, Step(d, m, s, es[0]), es[1..]))
  }

  lemma {:induction false} RunLive(d: Data, m: Mode, s: State, es: seq<Event>)
    requires Covered(d, m, s) && Live(s) && FairRun(d, m, s, es) && LoginsLive(d, m, s, es)
    ensures AlwaysLive(d, m, s, es)
    decreases |es|
  {
    hide Covered, Live, Step, Fair, ButtonsKnown, Grants;
    if es != [] {
      StepCovered(d, m, s, es[0]);
      if es[0].Login? {
        LoginLive(d, m, s, es[0].now);
      } else {
        StepLive(d, m, s, es[0]);
      }
      RunLive(d, m, Step(d, m, s, es[0]), es[1..]);
    }
  }

  lemma {:induction false} LiveLogins(d: Data, m: Mode, s: State, es: seq<Event>)
    requires AlwaysLive(d, m, s, es)
    ensures LoginsLive(d, m, s, es)
    decreases |es|
  {
    hide Live, Step, ButtonsKnown, Grants;
    if es != [] {
      if es[0].Login? {
        LoginLive(d, m, s, es[0].now);
        LiveNow(d, m, Step(d, m, s, es[0]), es[1..]);
      }
      LiveLogins(d, m, Step(d, m, s, es[0]), es[1..]);
    }
  }

  /** Over every run of a fair client, deferrals included, a button goes dead exactly where a world entry meets
      one that names a spell the rows no longer grant. */
  lemma DeadExactlyAtLogin(d: Data, m: Mode, s: State, es: seq<Event>)
    requires Covered(d, m, s) && Live(s) && FairRun(d, m, s, es)
    ensures AlwaysLive(d, m, s, es) <==> LoginsLive(d, m, s, es)
  {
    hide AlwaysLive, LoginsLive, Covered, Live, FairRun;
    if LoginsLive(d, m, s, es) {
      RunLive(d, m, s, es);
    }
    if AlwaysLive(d, m, s, es) {
      LiveLogins(d, m, s, es);
    }
  }

  lemma LiveNow(d: Data, m: Mode, s: State, es: seq<Event>)
    requires AlwaysLive(d, m, s, es)
    ensures Live(s)
  {
    hide Live, Step;
  }

  /** The saved buttons name only spells the rows grant, and an in-world client knows just those. */
  ghost predicate BarsLive(d: Data, s: State) {
    Agrees(d, s) && ButtonsKnown(s.book.bars, Grants(d, s.book.known))
  }

  lemma StepBars(d: Data, m: Mode, s: State, e: Event)
    requires BarsLive(d, s) && !Defers(s, e) && Fair(s, e)
    ensures BarsLive(d, Step(d, m, s, e))
  {
    hide Step, Client, Grants, Syncs, ButtonsKnown, Bound;
    StepAgrees(d, m, s, e);
    StepFields(d, m, s, e);
    if e.Login? {
      LoginLive(d, m, s, e.now);
    } else if s.inWorld {
      StepSyncs(d, m, s, e);
      var b' := Step(d, m, s, e).book;
      if Syncs(d, m, s, e) {
        assert Client(b'.log) == Grants(d, b'.known);
      } else if e.SetButton? {
        BoundKnown(s.book.bars, e.slot, e.packed, Client(s.book.log));
      } else {
        assert Kept(s.book, b');
      }
    } else {
      OutOfWorld(d, m, s, e);
    }
  }

  lemma OutOfWorld(d: Data, m: Mode, s: State, e: Event)
    requires !s.inWorld && !e.Login?
    ensures Step(d, m, s, e) == s
  {}

  /** As long as no activation is deferred, learn, unlearn, class and build steps leave no button on a spell the
      client lost, at later world entries either. */
  lemma {:induction false} NoDeadButtons(d: Data, m: Mode, s: State, es: seq<Event>)
    requires BarsLive(d, s) && FairRun(d, m, s, es) && !DefersIn(d, m, s, es)
    ensures BarsLive(d, Run(d, m, s, es))
    decreases |es|
  {
    hide BarsLive, Step, Fair, Defers;
    if es != [] {
      StepBars(d, m, s, es[0]);
      NoDeadButtons(d, m, Step(d, m, s, es[0]), es[1..]);
    }
  }

  /** The block after a deferral has no watermark to take anything from: it unbinds nothing, and seeds an empty
      layout if anything is granted. */
  lemma FlushUnbindsNothing(d: Data, m: Mode, s: State)
    requires s.book.sent.None? && (m == Full || m == KnownOnly)
    ensures var now := Grants(d, s.book.known);
            Flush(d, m, s).book.bars
              == if s.book.bars == map[] && now != {} then Autofill(d, Spellset(d, s.book)) else s.book.bars
  {
    hide Grants, Sync, EssenceRows, Post, Autofill, Spellset, ById;
    var b0 := Post(s.book, [Spec]);
    PostKeeps(s.book, [Spec]);
    var b1 := if m == KnownOnly then b0 else Post(b0, EssenceRows(d.essence));
    PostKeeps(b0, EssenceRows(d.essence));
    var b1' := Post(b1, [Known(ById(b1.known))]);
    PostKeeps(b1, [Known(ById(b1.known))]);
    SyncBars(d, b1');
    SpellsetOf(d, s.book, b1');
    var b2 := SendKnown(d, b1);
    var b3 := if s.active != "" then Post(b2, [Active(s.active)]) else b2;
    PostKeeps(b2, [Active(s.active)]);
    PostKeeps(b3, [Result(true)]);
    assert Unbound(s.book.bars, {}) == s.book.bars;
    assert b2.bars != Autofill(d, Spellset(d, s.book)) || s.book.bars != map[] ==> b2.bars == s.book.bars;
  }

  /** A deferred activation and its block: the buttons name granted spells afterwards exactly if they already named
      spells the new build grants; and that is also exactly when they are live at the next world entry. */
  lemma DeferredButtons(d: Data, m: Mode, s: State, id: string, now: int)
    requires BarsLive(d, s) && Defers(s, Activate(id)) && (m == Full || m == KnownOnly)
    ensures var flushed := Step(d, m, Step(d, m, s, Activate(id)), SetActiveMover);
            var again := Step(d, m, Step(d, m, flushed, Logout), Login(now));
            var granted := Grants(d, ById(s.builds[id]));
            && Live(flushed)
            && (ButtonsKnown(flushed.book.bars, granted) <==> ButtonsKnown(s.book.bars, granted))
            && (Live(again) <==> ButtonsKnown(s.book.bars, granted))
  {
    hide Client, Grants, Flush, Activated, ById, Autofill, Spellset, Step;
    var s1 := Step(d, m, s, Activate(id));
    DeferStep(d, m, s, Activate(id));
    FlushStep(d, m, s1);
    FlushFields(d, m, s1);
    FlushUnbindsNothing(d, m, s1);
    SeededKnown(d, s1.book);
    StepLive(d, m, s1, SetActiveMover);
    var s2 := Step(d, m, s1, SetActiveMover);
    LogoutStep(d, m, s2);
    LoginLive(d, m, Step(d, m, s2, Logout), now);
  }

  lemma LogoutStep(d: Data, m: Mode, s: State)
    ensures Step(d, m, s, Logout).book == s.book
  {}

  /** The witness: a button for spell 10, and a build that grants only spell 20. */
  function WitnessData(): Data {
    Data(map[1 := Entry([10], 1, 1), 2 := Entry([20], 1, 1)], [1, 2], map[10 := false, 20 := false], [], 0)
  }

  function WitnessState(): State {
    State(Book([Row(1, 1)], Some({10}), map[0 := 10], [Sent(Spells([10]), [Row(1, 1)])]), 1, "",
          map["b" := [Row(2, 1)]], true, Some(0), None)
  }

  /** Deferred, flushed and relogged, the client knows 20 alone and the button still names 10. */
  lemma DeferralKillsAButton(now: int)
    ensures var d, s := WitnessData(), WitnessState();
            var t := Step(d, Full, Step(d, Full, s, Activate("b")), SetActiveMover);
            BarsLive(d, s) && Defers(s, Activate("b")) && !Live(Step(d, Full, Step(d, Full, t, Logout), Login(now)))
  {
    hide Step, Grants, Client, ById;
    var d, s := WitnessData(), WitnessState();
    WitnessGrants(d);
    WitnessClient(s.book.log[0]);
    assert 0 in s.book.bars && IsSpellButton(s.book.bars[0]) && Action(s.book.bars[0]) == 10;
    DeferredButtons(d, Full, s, "b", now);
  }

  lemma WitnessClient(e: Sent)
    requires e.packet == Spells([10])
    ensures Client([e]) == {10}
  {
    ClientOne([], e);
    assert [] + [e] == [e];
    assert 10 in [10 as nat];
  }

  lemma WitnessGrants(d: Data)
    requires d.entries == map[1 := Entry([10], 1, 1), 2 := Entry([20], 1, 1)]
    requires d.passive == map[10 := false, 20 := false]
    ensures Grants(d, [Row(1, 1)]) == {10} && Grants(d, ById([Row(2, 1)])) == {20}
  {
    hide ById, KnownSpells;
    assert Chain([10]) == [10] by { assert [10 as nat][1..] == []; }
    assert Chain([20]) == [20] by { assert [20 as nat][1..] == []; }
    assert Granted(d, Row(1, 1)) == Some(10) && Granted(d, Row(2, 1)) == Some(20);
    GrantsById(d, [Row(2, 1)]);
    assert Row(1, 1) in [Row(1, 1)] && Row(2, 1) in [Row(2, 1)];
  }
}
