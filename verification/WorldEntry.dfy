/** Laws of whole runs: the deferred advancement block, and the order of known entries and acknowledgements. */
module WorldEntry {
  import opened Bytes
  import opened Ordering
  import opened Spellbook
  import opened Advancement

  // ---- laws of runs: the block and the acknowledgements -----------------------------------------

  /** Between entering the world and the block the count is 0; afterwards it is 1, and stays 1. */
  ghost predicate Counted(m: Mode, s: State) {
    var specs := Seen(s.book.log).specs;
    && (s.pending.Some? ==> s.inWorld && specs == 0)
    && specs <= (if m == NoBlock then 0 else 1)
    && (s.inWorld && s.pending.None? && m != NoBlock ==> specs == 1)
  }

  lemma StepCounted(d: Data, m: Mode, s: State, e: Event)
    requires Counted(m, s)
    ensures Counted(m, Step(d, m, s, e))
  {
    hide Seen, Step, Shows;
    SeenStep(d, m, s, e);
    StepFields(d, m, s, e);
  }

  lemma {:induction false} RunCounted(d: Data, m: Mode, s: State, es: seq<Event>)
    requires Counted(m, s)
    ensures Counted(m, Run(d, m, s, es))
    decreases |es|
  {
    hide Counted, Step;
    if es != [] {
      StepCounted(d, m, s, es[0]);
      RunCounted(d, m, Step(d, m, s, es[0]), es[1..]);
    }
  }

  /** At most one block is sent per world entry, in every mode and every run. */
  lemma OneBlockPerEntry(d: Data, m: Mode, s: State, es: seq<Event>)
    requires Fresh(s)
    ensures Seen(Run(d, m, s, es).book.log).specs <= 1
    ensures var s' := Run(d, m, s, es);
            s'.inWorld && m != NoBlock ==> (Seen(s'.book.log).specs == 1 <==> s'.pending.None?)
  {
    hide Run, Step;
    RunCounted(d, m, s, es);
  }

  predicate HastyRun(d: Data, m: Mode, s: State, es: seq<Event>)
    decreases |es|
  {
    es != [] && (Hasty(d, s, es[0]) || HastyRun(d, m, Step(d, m, s, es[0]), es[1..]))
  }

  lemma {:induction false} RunOrdered(d: Data, m: Mode, s: State, es: seq<Event>)
    requires Counted(m, s) && m != NoBlock
    ensures Seen(Run(d, m, s, es).book.log).ordered <==> Seen(s.book.log).ordered && !HastyRun(d, m, s, es)
    decreases |es|
  {
    hide Step, Shows, Seen;
    if es != [] {
      StepCounted(d, m, s, es[0]);
      SeenStep(d, m, s, es[0]);
      LoginShowsNothing(d, s, es[0]);
      RunOrdered(d, m, Step(d, m, s, es[0]), es[1..]);
    }
  }

  lemma LoginShowsNothing(d: Data, s: State, e: Event)
    ensures e.Login? ==> !Shows(d, s, e)
  {}

  /** A known-entry packet reaches the client before the container it fills exactly in the runs where an edit
      arrives while the block is owed: activations are deferred, but uploads and commands are not. */
  lemma EarlyExactly(d: Data, m: Mode, s: State, es: seq<Event>)
    requires Fresh(s) && m != NoBlock
    ensures Seen(Run(d, m, s, es).book.log).ordered <==> !HastyRun(d, m, s, es)
  {
    hide Run, HastyRun, Step;
    RunOrdered(d, m, s, es);
  }

  lemma {:induction false} RunAcked(d: Data, m: Mode, s: State, es: seq<Event>)
    requires m != BudgetOnly && Seen(s.book.log).acked
    ensures Seen(Run(d, m, s, es).book.log).acked
    decreases |es|
  {
    hide Step, Seen, Flushes, Shows;
    if es != [] {
      SeenStep(d, m, s, es[0]);
      RunAcked(d, m, Step(d, m, s, es[0]), es[1..]);
    }
  }

  /** Every run's successes follow the state they acknowledge. */
  ghost predicate AcksFollowState(m: Mode) {
    forall d: Data, s: State, es: seq<Event> :: Fresh(s) ==> Seen(Run(d, m, s, es).book.log).acked
  }

  /** It holds in every mode but the one whose block leaves the known entries out and still acknowledges. */
  lemma AcksFollowStateExactly(m: Mode)
    ensures AcksFollowState(m) <==> m != BudgetOnly
  {
    if m != BudgetOnly {
      forall d: Data, s: State, es: seq<Event> | Fresh(s) ensures Seen(Run(d, m, s, es).book.log).acked {
        RunAcked(d, m, s, es);
      }
    } else {
      var d := Data(map[], [], map[], [], 0);
      var s := State(Book([], None, map[], []), 1, "", map["b" := []], false, None, None);
      BudgetAcksBlindly(d, s);
      assert !Seen(Run(d, m, s, [Login(0), Activate("b"), SetActiveMover]).book.log).acked;
    }
  }

  /** The witness: an activation on the loading screen, then the block. */
  lemma BudgetAcksBlindly(d: Data, s: State)
    requires Fresh(s) && "b" in s.builds
    ensures !Seen(Run(d, BudgetOnly, s, [Login(0), Activate("b"), SetActiveMover]).book.log).acked
  {
    hide Seen, Step, Flush, Activated, ById;
    var m := BudgetOnly;
    var s1 := Step(d, m, s, Login(0));
    var s2 := Step(d, m, s1, Activate("b"));
    var s3 := Step(d, m, s2, SetActiveMover);
    RunThree(d, m, s, Login(0), Activate("b"), SetActiveMover);
    EmptyLog();
    SeenLogin(d, m, s, 0);
    LoginFields(d, m, s, 0);
    LoginBuilds(d, m, s, 0);
    ActivateStep(d, m, s1, "b");
    SeenActivated(d, s1, "b");
    ActivatedFields(d, s1, "b");
    FlushStep(d, m, s2);
    SeenFlush(d, m, s2);
  }

  lemma EmptyLog()
    ensures Seen([]) == Trace(None, 0, 0, true, true)
  {}

  lemma LoginBuilds(d: Data, m: Mode, s: State, now: int)
    ensures Step(d, m, s, Login(now)).builds == s.builds
  {}

  lemma ActivateStep(d: Data, m: Mode, s: State, id: string)
    requires s.inWorld
    ensures Step(d, m, s, Activate(id)) == Activated(d, s, id)
  {
    hide Activated;
  }

  lemma RunThree(d: Data, m: Mode, s: State, a: Event, b: Event, c: Event)
    ensures Run(d, m, s, [a, b, c]) == Step(d, m, Step(d, m, Step(d, m, s, a), b), c)
  {
    hide Step;
    assert [a, b, c][1..] == [b, c] && [b, c][1..] == [c] && [c][1..] == [];
    assert Run(d, m, s, [a, b, c]) == Run(d, m, Step(d, m, s, a), [b, c]);
    assert Run(d, m, Step(d, m, s, a), [b, c]) == Run(d, m, Step(d, m, Step(d, m, s, a), b), [c]);
  }

  function Accepted(d: Data, m: Mode, s: State, es: seq<Event>): nat
    decreases |es|
  {
    if es == [] then 0
    else (if Accepts(s, es[0]) then 1 else 0) + Accepted(d, m, Step(d, m, s, es[0]), es[1..])
  }

  /** No activation is acknowledged twice: successes sent, and the one still owed, never exceed the
      activations of stored builds. */
  lemma {:induction false} AcksBounded(d: Data, m: Mode, s: State, es: seq<Event>)
    ensures var s' := Run(d, m, s, es);
            Seen(s'.book.log).acks + Owed(s') <= Seen(s.book.log).acks + Owed(s) + Accepted(d, m, s, es)
    decreases |es|
  {
    hide Step, Seen, Owed, Flushes, Shows, Accepts;
    if es != [] {
      SeenStep(d, m, s, es[0]);
      AcksBounded(d, m, Step(d, m, s, es[0]), es[1..]);
    }
  }

  // ---- laws of runs: the shape of the block -----------------------------------------------------

  /** From position i: the container, every essence row in order, then the stored known entries. */
  ghost predicate BlockAt(d: Data, log: seq<Sent>, i: nat) {
    && i + 1 + d.essence < |log| && log[i].packet == Spec
    && (forall k | 0 <= k < d.essence :: log[i + 1 + k].packet == Essence(k))
    && log[i + 1 + d.essence].packet == Known(ById(log[i].known))
  }

  ghost predicate Blocks(d: Data, log: seq<Sent>) {
    forall i | 0 <= i < |log| && log[i].packet.Spec? :: BlockAt(d, log, i)
  }

  ghost predicate Grows(log: seq<Sent>, log': seq<Sent>) {
    && |log| <= |log'| && log'[..|log|] == log
    && (forall i | |log| <= i < |log'| :: !log'[i].packet.Spec?)
  }

  lemma GrowsPost(b: Book, ps: seq<Packet>)
    requires forall p | p in ps :: !p.Spec?
    ensures Grows(b.log, Post(b, ps).log)
  {}

  lemma GrowsTrans(a: seq<Sent>, b: seq<Sent>, c: seq<Sent>)
    requires Grows(a, b) && Grows(b, c)
    ensures Grows(a, c)
  {
    assert c[..|a|] == c[..|b|][..|a|];
  }

  lemma BlocksGrow(d: Data, log: seq<Sent>, log': seq<Sent>)
    requires Blocks(d, log) && Grows(log, log')
    ensures Blocks(d, log')
  {
    hide ById;
    forall i | 0 <= i < |log'| && log'[i].packet.Spec? ensures BlockAt(d, log', i) {
      assert BlockAt(d, log', i);
    }
  }

  lemma GrowsButtons(d: Data, b: Book)
    ensures Grows(b.log, SendButtons(d, b).log)
  {
    hide Grows, Autofill, Spellset, OnBar;
    var layout := SendButtons(d, b).bars;
    GrowsPost(b.(bars := layout), [Buttons(OnBar(layout))]);
  }

  lemma GrowsSync(d: Data, b: Book)
    ensures Grows(b.log, Sync(d, b).log)
  {
    hide Grows, Grants, Ascending, SendButtons, Stamped;
    var now, was := Grants(d, b.known), Was(b);
    var ps := LearnAll(Ascending(now - was)) + RemoveAll(Ascending(was - now));
    var b1 := Post(b, ps).(bars := Unbound(b.bars, was - now));
    GrowsPost(b, ps);
    GrowsButtons(d, b1);
    GrowsTrans(b.log, b1.log, SendButtons(d, b1).log);
  }

  lemma GrowsKnown(d: Data, b: Book)
    ensures Grows(b.log, SendKnown(d, b).log)
  {
    hide Grows, Sync, ById;
    var b1 := Post(b, [Known(ById(b.known))]);
    GrowsPost(b, [Known(ById(b.known))]);
    GrowsSync(d, b1);
    GrowsTrans(b.log, b1.log, Sync(d, b1).log);
  }

  lemma GrowsBook(d: Data, b: Book)
    ensures Grows(b.log, SendBook(d, b).log)
  {
    hide Grows, SendButtons, Spellset, Grants, Stamped;
    var ps := [Spells(Spellset(d, b)), Unlearn];
    GrowsPost(b, ps);
    GrowsButtons(d, Post(b, ps));
    GrowsTrans(b.log, Post(b, ps).log, SendButtons(d, Post(b, ps)).log);
  }

  /** The block itself, before whatever the synchronisation adds. */
  lemma BlockSent(d: Data, b: Book)
    requires Blocks(d, b.log)
    ensures var b1 := Post(Post(b, [Spec]), EssenceRows(d.essence));
            Blocks(d, Post(b1, [Known(ById(b1.known))]).log)
  {
    hide ById, Post, Blocks, BlockAt;
    var n := |b.log|;
    var b1 := Post(Post(b, [Spec]), EssenceRows(d.essence));
    var log := Post(b1, [Known(ById(b1.known))]).log;
    BlockBytes(d, b);
    forall i | 0 <= i < |log| && log[i].packet.Spec? ensures BlockAt(d, log, i) {
      if i < n {
        BlockKept(d, b.log, log, i);
      }
    }
    BlocksMeans(d, log);
  }

  lemma BlocksMeans(d: Data, log: seq<Sent>)
    requires forall i | 0 <= i < |log| && log[i].packet.Spec? :: BlockAt(d, log, i)
    ensures Blocks(d, log)
  {
    hide BlockAt;
  }

  lemma BlockBytes(d: Data, b: Book)
    ensures var b1 := Post(Post(b, [Spec]), EssenceRows(d.essence));
            var n, log := |b.log|, Post(b1, [Known(ById(b1.known))]).log;
            && |log| == n + 2 + d.essence && log[..n] == b.log && BlockAt(d, log, n)
            && (forall i | n < i < |log| :: !log[i].packet.Spec?)
  {
    hide ById;
    var n := |b.log|;
    var b1 := Post(Post(b, [Spec]), EssenceRows(d.essence));
    var k := Known(ById(b1.known));
    var log := Post(b1, [k]).log;
    assert log == b.log + [Sent(Spec, b.known)] + Stamped(EssenceRows(d.essence), b.known) + [Sent(k, b.known)];
  }

  lemma BlockKept(d: Data, log: seq<Sent>, log': seq<Sent>, i: nat)
    requires i < |log| <= |log'| && log'[..|log|] == log && Blocks(d, log) && log'[i].packet.Spec?
    ensures BlockAt(d, log', i)
  {
    hide ById;
    assert log'[..|log|][i] == log[i];
    assert BlockAt(d, log, i);
    forall k | 0 <= k < d.essence ensures log'[i + 1 + k].packet == Essence(k) {
      assert log'[..|log|][i + 1 + k] == log[i + 1 + k];
    }
    assert log'[..|log|][i + 1 + d.essence] == log[i + 1 + d.essence];
  }

  lemma FlushBlocks(d: Data, s: State)
    requires Blocks(d, s.book.log)
    ensures Blocks(d, Flush(d, Full, s).book.log)
  {
    hide Blocks, Grows, Sync, EssenceRows, Post, ById;
    var b1 := Post(Post(s.book, [Spec]), EssenceRows(d.essence));
    BlockSent(d, s.book);
    var b1' := Post(b1, [Known(ById(b1.known))]);
    GrowsSync(d, b1');
    var b2 := SendKnown(d, b1);
    BlocksGrow(d, b1'.log, b2.log);
    var b3 := if s.active != "" then Post(b2, [Active(s.active)]) else b2;
    GrowsPost(b2, [Active(s.active)]);
    if s.active != "" {
      BlocksGrow(d, b2.log, b3.log);
    }
    GrowsPost(b3, [Result(true)]);
    if s.ack.Some? {
      BlocksGrow(d, b3.log, Post(b3, [Result(true)]).log);
    }
  }

  lemma GrowsActivated(d: Data, s: State, id: string)
    ensures Grows(s.book.log, Activated(d, s, id).book.log)
  {
    hide Grows, SendKnown, Post, ById;
    if s.pending.Some? {
      GrowsPost(s.book, [Result(false)]);
      GrowsSelf(s.book.log);
    } else if id !in s.builds {
      var b := SendKnown(d, s.book);
      GrowsKnown(d, s.book);
      GrowsPost(b, [Result(false)]);
      GrowsTrans(s.book.log, b.log, Post(b, [Result(false)]).log);
    } else {
      var b0 := s.book.(known := ById(s.builds[id]));
      var b := SendKnown(d, b0);
      GrowsKnown(d, b0);
      var b1 := Post(b, [Active(id)]);
      GrowsPost(b, [Active(id)]);
      GrowsPost(b1, [Result(true)]);
      GrowsTrans(b0.log, b.log, b1.log);
      GrowsTrans(b0.log, b1.log, Post(b1, [Result(true)]).log);
    }
  }

  lemma GrowsSelf(log: seq<Sent>)
    ensures Grows(log, log)
  {}

  lemma GrowsReclassed(d: Data, s: State, c: nat, keep: bool)
    ensures Grows(s.book.log, Reclassed(d, s, c, keep).book.log)
  {
    hide Grows, SendKnown, Post, EssenceRows, Unlearnable, Without, ById;
    if c == s.classByte {
      GrowsSelf(s.book.log);
    } else {
      var gone := Unlearnable(d, s.book.known, c);
      var known := if gone == {} || keep then s.book.known else Without(ById(s.book.known), gone);
      var b0 := s.book.(known := known);
      var b1 := Post(b0, [ClassByte(c)]);
      var b2 := Post(b1, EssenceRows(d.essence));
      GrowsPost(b0, [ClassByte(c)]);
      GrowsEssence(b1, d.essence);
      GrowsKnown(d, b2);
      GrowsTrans(b0.log, b1.log, b2.log);
      GrowsTrans(b0.log, b2.log, SendKnown(d, b2).log);
    }
  }

  lemma GrowsEssence(b: Book, n: nat)
    ensures Grows(b.log, Post(b, EssenceRows(n)).log)
  {
    hide Grows;
    GrowsPost(b, EssenceRows(n));
  }

  /** Only the block sends the container. */
  lemma StepGrows(d: Data, m: Mode, s: State, e: Event)
    requires !(s.inWorld && Flushes(s, e))
    ensures Grows(s.book.log, Step(d, m, s, e).book.log)
  {
    hide Grows, Store, Flush, Activated, Reclassed, Edited, SendBook, Post, EssenceRows, Bound;
    GrowsSelf(s.book.log);
    if e.Login? {
      var b := Post(s.book, [Entered]);
      GrowsPost(s.book, [Entered]);
      GrowsBook(d, b);
      GrowsTrans(s.book.log, b.log, SendBook(d, b).log);
    } else if s.inWorld {
      if e.Activate? {
        GrowsActivated(d, s, e.build);
      } else if e.ChangeClass? {
        GrowsReclassed(d, s, e.to, e.keep);
      } else if IsEdit(e) {
        var rows := Edited(d, s, e);
        if rows.Some? {
          StoreBars(d, s, rows.value);
          GrowsKnown(d, s.book.(known := rows.value));
        }
      } else {
        GrowsEssence(s.book, d.essence);
      }
    }
  }

  /** In full mode every container packet of a run is followed by all the essence rows in order, and then by
      the known entries as stored at that moment. */
  lemma {:induction false} BlockShape(d: Data, s: State, es: seq<Event>)
    requires Blocks(d, s.book.log)
    ensures Blocks(d, Run(d, Full, s, es).book.log)
    decreases |es|
  {
    hide Blocks, Step, Flush, Flushes;
    if es != [] {
      var s' := Step(d, Full, s, es[0]);
      if s.inWorld && Flushes(s, es[0]) {
        FlushBlocks(d, s);
        FlushedStep(d, Full, s, es[0]);
      } else {
        StepGrows(d, Full, s, es[0]);
        BlocksGrow(d, s.book.log, s'.book.log);
      }
      BlockShape(d, s', es[1..]);
    }
  }

  lemma FlushedStep(d: Data, m: Mode, s: State, e: Event)
    requires s.inWorld && Flushes(s, e)
    ensures Step(d, m, s, e) == Flush(d, m, s)
  {
    hide Flush;
  }
}
